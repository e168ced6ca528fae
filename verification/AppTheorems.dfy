/** What the terminal application's state and its log of signals say, in terms of the rows on
    display, the keys typed and the fresh evidence. */
module AppTheorems {
  import opened Orders
  import opened Observation
  import opened QueryModel
  import opened QueryTheorems
  import opened KillTargets
  import opened AppView
  import opened App
  import Display

  // ----- Signals

  /** The typed answer names the process the confirmation opened on, by its PID or by its name as
      the screen shows it. */
  ghost predicate NamesTarget(typed: string, origin: KillTarget) {
    && Trim(typed) != ""
    && (Trim(typed) == Decimal(origin.pid) || (origin.name.Some? && Trim(typed) == Display.Sanitize(origin.name.value)))
  }

  /** What stands behind every signal in the log: fresh evidence still shows the process the
      confirmation opened on, it is neither the application nor a process nobody may signal, and
      the user typed what its mode and protection demand. */
  ghost predicate Grounded(settings: Settings, d: Delivery) {
    && d.latest.pid == d.origin.pid == d.confirmed.pid
    && d.origin.marker.Some? && d.latest.marker == d.origin.marker
    && d.latest.ports == d.origin.ports && (d.origin.name.Some? ==> d.latest.name == d.origin.name)
    && d.latest.pid != 0 && d.latest.pid != 1 && d.latest.pid != settings.ownPid
    && match d
       case Single(origin, confirmed, latest, mode, requirement, typed) =>
         && (origin.isProtected || latest.isProtected ==> NamesTarget(typed, origin))
         && (!confirmed.isProtected ==>
               if mode == Force && settings.confirmForce then Spells(Trim(typed), "force")
               else Spells(Trim(typed), "y") || Spells(Trim(typed), "yes"))
       case Tree(origin, confirmed, latest, mode, rootPhrase, word, scan) =>
         && Spells(Trim(word), if mode == Force then "force" else "tree")
         && !scan.truncated
         && (forall n | n in scan.nodes :: n.pid != 0 && n.pid != 1 && n.pid != settings.ownPid
                                           && (n.depth > 0 ==> !n.isProtected))
         && (origin.isProtected || latest.isProtected || RootProtected(scan) ==>
               rootPhrase.Some? && NamesTarget(rootPhrase.value, origin))
  }

  lemma AuthorizedIsGrounded(settings: Settings, d: Delivery)
    requires Authorized(settings, d)
    ensures Grounded(settings, d)
  {
    hide Trim;
    hide Spells;
    hide Decimal;
    hide Display.Sanitize;
    hide InputMatches;
    hide WordMatches;
    match d
    case Single(origin, confirmed, latest, mode, requirement, typed) =>
      AnswersExactly(typed, origin);
      AnswersExactly(typed, confirmed);
    case Tree(origin, confirmed, latest, mode, rootPhrase, word, scan) =>
      WordExactly(word, mode);
      if rootPhrase.Some? { AnswersExactly(rootPhrase.value, origin); }
      TreeGatesExactly(settings.ownPid, scan, true);
  }

  /** Exactly when a confirmed single kill is delivered: the process can be pinned, and fresh rows
      show it alone on every confirmed port, in its generation, unprotected unless confirmed so,
      under a usable and unchanged name. */
  lemma SingleDeliveredExactly(k: KillConfirmation, world: World, origin: KillTarget, typed: string)
    ensures KillDeliveries(k, world, origin, typed) != [] <==>
      && world.prepared == Handle && world.freshRows.Some?
      && var rows, t := world.freshRows.value, k.target;
         && Revalidate(t, rows, Some(world.freshContext)).Ok?
         && var name := FirstName(Filter(ConfirmedRow(t), rows));
            name.Some? && 0 < |name.value| && Display.ByteLength(name.value) <= 4096 && (t.name.Some? ==> name == t.name)
  {
    hide FirstName;
    hide LostOwner;
    hide StillMatches;
    if world.freshRows.Some? {
      var checked := Revalidate(k.target, world.freshRows.value, Some(world.freshContext));
      if checked.Ok? {
        RevalidatedSame(k.target, world.freshRows.value, Some(world.freshContext), checked.value);
        SingleEvidenceExactly(k.target, checked.value);
      }
    }
  }

  /** Exactly when a confirmed tree kill is delivered. */
  lemma TreeDeliveredExactly(t: TreeConfirmation, world: World, ownPid: nat, origin: KillTarget, rootPhrase: Option<string>)
    ensures TreeDeliveries(t, world, ownPid, origin, rootPhrase) != [] <==>
      && world.prepared == Handle && world.freshRows.Some? && world.treeScan.Ok?
      && Revalidate(t.target, world.freshRows.value, Some(world.freshContext)).Ok?
      && var scan := world.treeScan.value;
         && !scan.truncated
         && (forall n | n in scan.nodes :: n.pid != 0 && n.pid != 1 && n.pid != ownPid && (n.depth > 0 ==> !n.isProtected))
         && (RootProtected(scan) ==> t.target.isProtected)
  {
    hide Revalidate;
    hide RootProtected;
    if world.treeScan.Ok? {
      TreeGatesExactly(ownPid, world.treeScan.value, t.target.isProtected);
    }
    hide FreshTreeGates;
  }

  // ----- The table

  /** The visible rows are exactly those the filter text selects, without the hidden ones. */
  lemma TableExactly(settings: Settings, entries: seq<Entry>, filterText: string, mode: SortMode, visible: seq<nat>,
                     filterError: Option<QueryError>, i: nat)
    requires Shows(settings, entries, filterText, mode, visible, filterError)
    ensures filterError.None? <==> settings.parse(filterText).Ok?
    ensures i in visible <==>
      && i < |entries| && settings.parse(filterText).Ok?
      && !(settings.hideSystem && entries[i].row.isSystem)
      && forall t | t in settings.parse(filterText).value :: TermMatches(settings.env, entries[i].row, t)
  {
    hide TermMatches;
    var o := TableQuery(settings, filterText, mode);
    RefusedExactly(settings.env, Views(entries), o);
    var result := FreshQuery(settings.env, Views(entries), o);
    hide FreshQuery;
    if result.Ok? {
      FreshIndex(settings.env, Views(entries), o, result.value, i);
    }
  }

  /** ... in the order of the current sort mode, each once. */
  lemma TableOrder(settings: Settings, entries: seq<Entry>, filterText: string, mode: SortMode, visible: seq<nat>,
                   filterError: Option<QueryError>, a: nat, b: nat)
    requires Shows(settings, entries, filterText, mode, visible, filterError) && a < b < |visible|
    ensures visible[a] < |entries| && visible[b] < |entries| && visible[a] != visible[b]
    ensures var x, y := entries[visible[a]].row, entries[visible[b]].row;
      && Leads(settings.env, mode, x, y)
      && (SameKey(settings.env, mode, x, y) ==> TieLeads(x, y))
  {
    var o := TableQuery(settings, filterText, mode);
    var result := FreshQuery(settings.env, Views(entries), o);
    hide FreshQuery;
    hide Leads;
    hide SameKey;
    hide TieLeads;
    SortedByMode(settings.env, Views(entries), o, result.value, a, b);
  }
}
