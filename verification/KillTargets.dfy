/** Kill targets and the gates in front of a signal: `src/process.rs`, the shared evidence
    rule of `src/process_evidence.rs`, and the preview gates of `src/tree/plan.rs`. */
module KillTargets {
  import opened Orders
  import opened Observation
  import opened QueryModel
  import Display

  const CONFIRMATION_INPUT_MAX_BYTES: nat := 128
  const PROTECTION_NAME_MAX_BYTES: nat := 4 * 1024

  // ----- Rows and targets

  /** One row of the table together with the process identity behind it. */
  datatype Entry = Entry(row: Row<string>, identity: Option<ProcessIdentity>)

  datatype PortKey = PortKey(protocol: Protocol, localAddr: Address, localPort: nat, ipv6Scope: Option<Ipv6Scope>)

  /** What the details worker read about one process; `marker` names the generation it read. */
  datatype ProcessContext = ProcessContext(marker: Option<StartMarker>, ownerUid: Option<nat>, childCount: nat)

  datatype KillTarget = KillTarget(pid: nat, name: Option<string>, isProtected: bool, ports: set<PortKey>,
                                   marker: Option<StartMarker>, ownerUid: Option<nat>, childCount: nat)

  datatype KillMode = Terminate | Force

  datatype Requirement = AnswerYes | ForceWord | ProtectedProcess

  datatype KillRefusal =
    | UnsafePid | OwnershipUnavailable | TargetChanged | BecameProtected | MissingName | EvidenceChanged
    | TreeTruncated | ProtectedDescendant(pid: nat) | ProtectedRoot | RootExited | ScanFailed

  function PortOf(e: Entry): PortKey {
    PortKey(e.row.protocol, e.row.localAddr, e.row.localPort, e.row.ipv6Scope)
  }

  function OwnedBy(pid: nat): Entry -> bool {
    (e: Entry) => e.row.pid == Some(pid)
  }

  function RowsOf(entries: seq<Entry>, pid: nat): seq<Entry> {
    Filter(OwnedBy(pid), entries)
  }

  function FirstName(entries: seq<Entry>): Option<string> {
    if entries == [] then None
    else if entries[0].row.processName.Some? then entries[0].row.processName
    else FirstName(entries[1..])
  }

  /** All rows name one identity of `pid`. */
  predicate OneIdentity(pid: nat, entries: seq<Entry>) {
    && entries != [] && entries[0].identity.Some? && entries[0].identity.value.pid == pid
    && forall e | e in entries :: e.identity == entries[0].identity
  }

  /** `KillTarget::from_entries`: one target from every row of one process. */
  function FromEntries(pid: nat, entries: seq<Entry>, context: Option<ProcessContext>): KillTarget {
    KillTarget(pid, FirstName(entries), exists e | e in entries :: e.row.isProtected,
               set e | e in entries :: PortOf(e),
               if OneIdentity(pid, entries) then Some(entries[0].identity.value.startMarker) else None,
               if context.Some? then context.value.ownerUid else None,
               if context.Some? then context.value.childCount else 0)
  }

  /** Two targets that differ at most in protection and in displayed context. */
  predicate SameProcess(a: KillTarget, b: KillTarget) {
    a.pid == b.pid && a.name == b.name && a.ports == b.ports && a.marker == b.marker
  }

  predicate IsUnsafePid(ownPid: nat, pid: nat) {
    pid == 0 || pid == 1 || pid == ownPid
  }

  // ----- Confirmation

  /** `confirmation_requirement` for a caller that has no `--yes`. */
  function RequirementFor(isProtected: bool, mode: KillMode, confirmForce: bool): Requirement {
    if isProtected then ProtectedProcess
    else if mode == Force && confirmForce then ForceWord
    else AnswerYes
  }

  /** Unicode `White_Space`. */
  predicate IsSpace(c: char) {
    || 0x9 <= c as int <= 0xd || 0x2000 <= c as int <= 0x200a
    || c as int in {0x20, 0x85, 0xa0, 0x1680, 0x2028, 0x2029, 0x202f, 0x205f, 0x3000}
  }

  /** Among ASCII, whitespace is tab to carriage return and the space, and nothing one can see. */
  lemma SpaceExactly(c: char)
    requires c as int < 0x80
    ensures IsSpace(c) <==> c in {'\t', '\n', '\U{0b}', '\U{0c}', '\r', ' '}
  {
  }

  function Trim(s: string): string {
    if s == [] then s
    else if IsSpace(s[0]) then Trim(s[1..])
    else if IsSpace(s[|s| - 1]) then Trim(s[..|s| - 1])
    else s
  }

  predicate SameWord(a: string, b: string) {
    Map(AsciiLower, a) == Map(AsciiLower, b)
  }

  /** The sanitized name a user may type, unless trimming would change it. */
  function ConfirmationName(target: KillTarget): Option<string> {
    if target.name.None? then None
    else
      var shown := Display.Sanitize(target.name.value);
      if shown != "" && Trim(shown) == shown then Some(shown) else None
  }

  /** `confirmation_input_matches` on Linux and macOS. */
  predicate InputMatches(input: string, target: KillTarget, requirement: Requirement) {
    var trimmed := Trim(input);
    match requirement
    case AnswerYes => SameWord(trimmed, "y") || SameWord(trimmed, "yes")
    case ForceWord => SameWord(trimmed, "force")
    case ProtectedProcess =>
      trimmed != "" && (trimmed == Decimal(target.pid) || ConfirmationName(target) == Some(trimmed))
  }

  function ScopeWord(mode: KillMode): string {
    if mode == Force then "force" else "tree"
  }

  predicate WordMatches(input: string, word: string) {
    SameWord(Trim(input), word)
  }

  /** What confirms a protected target does not depend on anything a context read may change. */
  lemma ConfirmationSurvives(input: string, a: KillTarget, b: KillTarget)
    requires SameProcess(a, b)
    ensures InputMatches(input, a, ProtectedProcess) == InputMatches(input, b, ProtectedProcess)
  {
  }

  lemma {:induction false} TrimNoEdge(s: string)
    ensures Trim(s) == "" || (!IsSpace(Trim(s)[0]) && !IsSpace(Trim(s)[|Trim(s)| - 1]))
    ensures Trim(Trim(s)) == Trim(s)
    decreases |s|
  {
    if s != [] {
      TrimNoEdge(s[1..]);
      TrimNoEdge(s[..|s| - 1]);
    }
  }

  /** The text spells the lowercase word, in any mixture of case. */
  ghost predicate Spells(s: string, word: string) {
    && |s| == |word|
    && forall i | 0 <= i < |s| :: s[i] == word[i] || ('A' <= s[i] <= 'Z' && s[i] as int + 32 == word[i] as int)
  }

  lemma SameWordSpells(s: string, word: string)
    requires forall i | 0 <= i < |word| :: 'a' <= word[i] <= 'z'
    ensures SameWord(s, word) <==> Spells(s, word)
  {
    forall i | 0 <= i < |word| ensures AsciiLower(word[i]) == word[i] {}
    assert Map(AsciiLower, word) == word;
    if Spells(s, word) {
      assert Map(AsciiLower, s) == word;
    }
  }

  lemma Around(s: string, first: string, before: string, middle: string, after: string, last: string)
    requires s == first + (before + middle + after) + last
    ensures s == (first + before) + middle + (after + last)
  {
  }

  /** Trimming takes whitespace from both ends and nothing else. */
  lemma {:induction false} TrimExactly(s: string) returns (before: string, after: string)
    ensures s == before + Trim(s) + after
    ensures (forall c | c in before :: IsSpace(c)) && (forall c | c in after :: IsSpace(c))
    decreases |s|
  {
    hide IsSpace;
    before, after := "", "";
    if s != [] && IsSpace(s[0]) {
      var inner;
      inner, after := TrimExactly(s[1..]);
      before := [s[0]] + inner;
      Around(s, [s[0]], inner, Trim(s), after, "");
    } else if s != [] && IsSpace(s[|s| - 1]) {
      var inner;
      before, inner := TrimExactly(s[..|s| - 1]);
      after := inner + [s[|s| - 1]];
      Around(s, "", before, Trim(s), inner, [s[|s| - 1]]);
    }
  }

  /** What confirms each prompt: y or yes, the word force, or for a protected process its PID or
      its name as the screen shows it. */
  lemma AnswersExactly(input: string, target: KillTarget)
    ensures InputMatches(input, target, AnswerYes) <==> Spells(Trim(input), "y") || Spells(Trim(input), "yes")
    ensures InputMatches(input, target, ForceWord) <==> Spells(Trim(input), "force")
    ensures InputMatches(input, target, ProtectedProcess) <==>
      && Trim(input) != ""
      && (Trim(input) == Decimal(target.pid)
          || (target.name.Some? && Trim(input) == Display.Sanitize(target.name.value)))
  {
    SameWordSpells(Trim(input), "y");
    SameWordSpells(Trim(input), "yes");
    SameWordSpells(Trim(input), "force");
    TrimNoEdge(input);
    hide Trim;
    hide SameWord;
    hide Spells;
    hide Decimal;
    hide Display.Sanitize;
  }

  /** The word a tree kill asks for. */
  lemma WordExactly(input: string, mode: KillMode)
    ensures WordMatches(input, ScopeWord(mode)) <==> Spells(Trim(input), if mode == Force then "force" else "tree")
  {
    SameWordSpells(Trim(input), "force");
    SameWordSpells(Trim(input), "tree");
  }

  /** Blank input never confirms a protected process, and what does confirm it is the PID or
      harmless text the screen can show. */
  lemma ProtectedAnswerVisible(input: string, target: KillTarget)
    requires InputMatches(input, target, ProtectedProcess)
    ensures Trim(input) != ""
    ensures Trim(input) == Decimal(target.pid) || Display.Harmless(Trim(input), false)
  {
    if target.name.Some? {
      Display.SanitizedHarmless(target.name.value, false);
    }
  }

  // ----- Revalidation before delivery

  predicate StillMatches(confirmed: KillTarget, latest: KillTarget) {
    && confirmed.pid == latest.pid
    && (confirmed.name.Some? ==> latest.name == confirmed.name)
    && confirmed.marker.Some? && latest.marker == confirmed.marker
    && confirmed.ports <= latest.ports
  }

  predicate LostOwner(confirmed: KillTarget, entries: seq<Entry>) {
    exists e | e in entries :: e.row.pid.None? && PortOf(e) in confirmed.ports
  }

  function ConfirmedRow(confirmed: KillTarget): Entry -> bool {
    (e: Entry) => e.row.pid == Some(confirmed.pid) && PortOf(e) in confirmed.ports
  }

  /** `revalidate_confirmed_target` */
  function Revalidate(confirmed: KillTarget, entries: seq<Entry>, context: Option<ProcessContext>): Result<KillTarget, KillRefusal> {
    if LostOwner(confirmed, entries) then Err(OwnershipUnavailable)
    else
      var rows := Filter(ConfirmedRow(confirmed), entries);
      var latest := FromEntries(confirmed.pid, rows, context);
      if rows == [] || !StillMatches(confirmed, latest) then Err(TargetChanged)
      else if latest.isProtected && !confirmed.isProtected then Err(BecameProtected)
      else Ok(latest)
  }

  /** Every row of the confirmed ports that the confirmed process still owns. */
  ghost predicate StillOwns(confirmed: KillTarget, entries: seq<Entry>, port: PortKey) {
    exists e | e in entries :: e.row.pid == Some(confirmed.pid) && PortOf(e) == port
  }

  /** A target passes revalidation exactly when the fresh rows show the confirmed process, in
      the confirmed generation, on every confirmed port, with no confirmed port left unowned,
      under the confirmed name, and not newly protected. */
  lemma RevalidatedExactly(confirmed: KillTarget, entries: seq<Entry>, context: Option<ProcessContext>)
    ensures Revalidate(confirmed, entries, context).Ok? <==>
      && confirmed.ports != {} && confirmed.marker.Some?
      && (forall p | p in confirmed.ports :: StillOwns(confirmed, entries, p))
      && (forall e | e in entries && PortOf(e) in confirmed.ports :: e.row.pid.Some?)
      && (forall e | e in entries && ConfirmedRow(confirmed)(e) ::
            && e.identity == Some(ProcessIdentity(confirmed.pid, confirmed.marker.value))
            && (e.row.isProtected ==> confirmed.isProtected))
      && (confirmed.name.Some? ==> FirstName(Filter(ConfirmedRow(confirmed), entries)) == confirmed.name)
  {
    hide FirstName;
    var rows := Filter(ConfirmedRow(confirmed), entries);
    var latest := FromEntries(confirmed.pid, rows, context);
    HeadIn(rows);
    RowPorts(confirmed, entries);
  }

  lemma RowPorts(confirmed: KillTarget, entries: seq<Entry>)
    ensures var rows := Filter(ConfirmedRow(confirmed), entries);
      confirmed.ports <= (set e | e in rows :: PortOf(e)) <==> forall p | p in confirmed.ports :: StillOwns(confirmed, entries, p)
  {
    var rows := Filter(ConfirmedRow(confirmed), entries);
    HeadIn(rows);
    forall p | p in confirmed.ports ensures p in (set e | e in rows :: PortOf(e)) <==> StillOwns(confirmed, entries, p) {
      if StillOwns(confirmed, entries, p) {
        var e :| e in entries && e.row.pid == Some(confirmed.pid) && PortOf(e) == p;
        assert e in rows;
      }
    }
  }

  /** Which refusal a failed revalidation gives: a confirmed port left without an owner first, a
      process newly protected last, otherwise a changed target. */
  lemma RevalidationRefusals(confirmed: KillTarget, entries: seq<Entry>, context: Option<ProcessContext>)
    ensures Revalidate(confirmed, entries, context) == Err(OwnershipUnavailable) <==>
              exists e | e in entries :: e.row.pid.None? && PortOf(e) in confirmed.ports
    ensures Revalidate(confirmed, entries, context) == Err(BecameProtected) ==>
              !confirmed.isProtected && exists e | e in entries :: e.row.pid == Some(confirmed.pid) && e.row.isProtected
    ensures Revalidate(confirmed, entries, context).Err? ==>
              Revalidate(confirmed, entries, context).error in {OwnershipUnavailable, BecameProtected, TargetChanged}
  {
    hide FirstName;
    hide StillMatches;
  }

  /** A revalidated target is the confirmed one: same process, same generation, same ports. */
  lemma RevalidatedSame(confirmed: KillTarget, entries: seq<Entry>, context: Option<ProcessContext>, latest: KillTarget)
    requires Revalidate(confirmed, entries, context) == Ok(latest)
    ensures latest.pid == confirmed.pid && latest.marker == confirmed.marker && latest.marker.Some?
    ensures latest.ports == confirmed.ports
    ensures confirmed.name.Some? ==> latest.name == confirmed.name
    ensures latest.isProtected ==> confirmed.isProtected
  {
  }

  /** `validate_single_delivery_evidence`: identity and a usable, unchanged name. */
  function SingleEvidence(confirmed: KillTarget, latest: KillTarget): Option<KillRefusal> {
    if confirmed.marker.None? || latest.marker.None? then Some(TargetChanged)
    else if latest.name.None? then Some(MissingName)
    else if latest.pid != confirmed.pid || latest.marker != confirmed.marker then Some(EvidenceChanged)
    else if latest.name.value == "" || Display.ByteLength(latest.name.value) > PROTECTION_NAME_MAX_BYTES then Some(MissingName)
    else if confirmed.name.Some? && confirmed.name != latest.name then Some(EvidenceChanged)
    else None
  }

  /** The evidence in front of a single signal holds exactly when the fresh target is the confirmed
      one, in its generation, under a usable and unchanged name. */
  lemma SingleEvidenceExactly(confirmed: KillTarget, latest: KillTarget)
    ensures SingleEvidence(confirmed, latest).None? <==>
      && confirmed.marker.Some? && latest.marker == confirmed.marker && latest.pid == confirmed.pid
      && latest.name.Some? && 0 < |latest.name.value| && Display.ByteLength(latest.name.value) <= 4096
      && (confirmed.name.Some? ==> confirmed.name == latest.name)
  {
  }

  // ----- What a target says about its rows

  lemma {:induction false} FirstNameExactly(entries: seq<Entry>)
    ensures FirstName(entries).None? <==> forall e | e in entries :: e.row.processName.None?
    ensures FirstName(entries).Some? ==>
      exists i | 0 <= i < |entries| ::
        entries[i].row.processName == FirstName(entries) && forall j | 0 <= j < i :: entries[j].row.processName.None?
  {
    if entries != [] {
      FirstNameExactly(entries[1..]);
      assert entries == [entries[0]] + entries[1..] && entries[0] in entries;
      if entries[0].row.processName.Some? {
        assert entries[0].row.processName == FirstName(entries);
      } else if FirstName(entries).Some? {
        var i :| 0 <= i < |entries[1..]| && entries[1..][i].row.processName == FirstName(entries)
                 && forall j | 0 <= j < i :: entries[1..][j].row.processName.None?;
        assert entries[i+1] == entries[1..][i];
        assert forall j | 0 < j < i + 1 :: entries[j] == entries[1..][j-1];
      }
    }
  }

  /** A target is what its process's rows say together: protected when one row is, on every port
      a row names, in the one generation all rows agree on, if they do. */
  lemma TargetExactly(pid: nat, entries: seq<Entry>, context: Option<ProcessContext>)
    ensures var t := FromEntries(pid, RowsOf(entries, pid), context);
      && t.pid == pid
      && (t.isProtected <==> exists e | e in entries :: e.row.pid == Some(pid) && e.row.isProtected)
      && (forall p :: p in t.ports <==>
            exists e | e in entries :: e.row.pid == Some(pid) && e.row.protocol == p.protocol && e.row.localAddr == p.localAddr
                                       && e.row.localPort == p.localPort && e.row.ipv6Scope == p.ipv6Scope)
      && (forall m :: t.marker == Some(m) <==>
            && (exists e | e in entries :: e.row.pid == Some(pid))
            && (forall e | e in entries && e.row.pid == Some(pid) :: e.identity == Some(ProcessIdentity(pid, m))))
  {
    hide FirstName;
    var rows := RowsOf(entries, pid);
    var t := FromEntries(pid, rows, context);
    assert forall e :: e in rows <==> e in entries && e.row.pid == Some(pid);
    forall p ensures p in t.ports <==>
      exists e | e in entries :: e.row.pid == Some(pid) && e.row.protocol == p.protocol && e.row.localAddr == p.localAddr
                                 && e.row.localPort == p.localPort && e.row.ipv6Scope == p.ipv6Scope
    {
      if e :| e in entries && e.row.pid == Some(pid) && e.row.protocol == p.protocol && e.row.localAddr == p.localAddr
              && e.row.localPort == p.localPort && e.row.ipv6Scope == p.ipv6Scope {
        assert e in rows && PortOf(e) == p;
      }
    }
    forall m ensures t.marker == Some(m) <==> rows != [] && forall e | e in rows :: e.identity == Some(ProcessIdentity(pid, m)) {
      if rows != [] { assert rows[0] in rows; }
    }
    HeadIn(rows);
  }

  // ----- Tree previews

  datatype TreeNode = TreeNode(pid: nat, parentPid: Option<nat>, depth: nat, isProtected: bool)

  datatype TreePreview = TreePreview(nodes: seq<TreeNode>, truncated: bool)

  function FirstNode(p: TreeNode -> bool, nodes: seq<TreeNode>): Option<TreeNode> {
    if nodes == [] then None else if p(nodes[0]) then Some(nodes[0]) else FirstNode(p, nodes[1..])
  }

  function Root(preview: TreePreview): Option<TreeNode> {
    FirstNode((n: TreeNode) => n.depth == 0, preview.nodes)
  }

  predicate RootProtected(preview: TreePreview) {
    Root(preview).Some? && Root(preview).value.isProtected
  }

  /** The root of a preview is its first node at depth zero. */
  lemma {:induction false} RootExactly(preview: TreePreview)
    ensures RootProtected(preview) <==>
      exists i | 0 <= i < |preview.nodes| ::
        preview.nodes[i].depth == 0 && preview.nodes[i].isProtected && forall j | 0 <= j < i :: preview.nodes[j].depth != 0
    decreases |preview.nodes|
  {
    var nodes := preview.nodes;
    if nodes != [] && nodes[0].depth != 0 {
      var rest := TreePreview(nodes[1..], preview.truncated);
      RootExactly(rest);
      if RootProtected(preview) {
        var i :| 0 <= i < |rest.nodes| && rest.nodes[i].depth == 0 && rest.nodes[i].isProtected
                 && forall j | 0 <= j < i :: rest.nodes[j].depth != 0;
        assert nodes[i+1] == rest.nodes[i] && forall j | 0 < j < i + 1 :: nodes[j] == rest.nodes[j-1];
      }
      if i :| 0 <= i < |nodes| && nodes[i].depth == 0 && nodes[i].isProtected && forall j | 0 <= j < i :: nodes[j].depth != 0 {
        assert rest.nodes[i-1] == nodes[i] && forall j | 0 <= j < i - 1 :: rest.nodes[j] == nodes[j+1];
      }
    }
  }

  function Dangerous(ownPid: nat): TreeNode -> bool {
    (n: TreeNode) => IsUnsafePid(ownPid, n.pid)
  }

  predicate Shielded(n: TreeNode) {
    n.depth > 0 && n.isProtected
  }

  /** `preflight_outcome`: the first reason to refuse a previewed tree. */
  function Preflight(ownPid: nat, preview: TreePreview): Option<KillRefusal> {
    var dangerous := FirstNode(Dangerous(ownPid), preview.nodes);
    var shielded := FirstNode(Shielded, preview.nodes);
    if preview.truncated then Some(TreeTruncated)
    else if dangerous.Some? then Some(UnsafePid)
    else if shielded.Some? then Some(ProtectedDescendant(shielded.value.pid))
    else None
  }

  /** `fresh_tree_gates`: a fresh scan must pass preflight, and a root it finds protected needs
      the protected-root confirmation. */
  function FreshTreeGates(ownPid: nat, scan: Result<TreePreview, KillRefusal>, rootConfirmed: bool): Option<KillRefusal> {
    if scan.Err? then Some(scan.error)
    else if Preflight(ownPid, scan.value).Some? then Preflight(ownPid, scan.value)
    else if !rootConfirmed && RootProtected(scan.value) then Some(ProtectedRoot)
    else None
  }

  lemma {:induction false} FirstNodeFinds(p: TreeNode -> bool, nodes: seq<TreeNode>)
    ensures FirstNode(p, nodes).None? <==> forall n | n in nodes :: !p(n)
    ensures FirstNode(p, nodes).Some? ==> FirstNode(p, nodes).value in nodes && p(FirstNode(p, nodes).value)
  {
    if nodes != [] {
      FirstNodeFinds(p, nodes[1..]);
      assert nodes == [nodes[0]] + nodes[1..];
    }
  }

  /** Which refusal a preview gives: truncation first, then a process nobody may signal, then the
      first protected descendant. */
  lemma PreflightRefusals(ownPid: nat, preview: TreePreview)
    ensures preview.truncated ==> Preflight(ownPid, preview) == Some(TreeTruncated)
    ensures !preview.truncated && (exists n | n in preview.nodes :: n.pid == 0 || n.pid == 1 || n.pid == ownPid) ==>
              Preflight(ownPid, preview) == Some(UnsafePid)
    ensures forall pid :: Preflight(ownPid, preview) == Some(ProtectedDescendant(pid)) ==>
              exists n | n in preview.nodes :: n.pid == pid && n.depth > 0 && n.isProtected
  {
    FirstNodeFinds(Dangerous(ownPid), preview.nodes);
    FirstNodeFinds(Shielded, preview.nodes);
    if !preview.truncated && exists n | n in preview.nodes :: n.pid == 0 || n.pid == 1 || n.pid == ownPid {
      var n :| n in preview.nodes && (n.pid == 0 || n.pid == 1 || n.pid == ownPid);
      assert Dangerous(ownPid)(n);
    }
  }

  /** A tree passes the fresh gates exactly when the scan is complete, touches nothing unsafe
      or protected below its root, and a protected root was confirmed. */
  lemma TreeGatesExactly(ownPid: nat, preview: TreePreview, rootConfirmed: bool)
    ensures FreshTreeGates(ownPid, Ok(preview), rootConfirmed).None? <==>
      && !preview.truncated
      && (forall n | n in preview.nodes :: !IsUnsafePid(ownPid, n.pid) && (n.depth > 0 ==> !n.isProtected))
      && (RootProtected(preview) ==> rootConfirmed)
  {
    FirstNodeFinds(Dangerous(ownPid), preview.nodes);
    FirstNodeFinds(Shielded, preview.nodes);
  }
}
