/** The terminal application's state machine, `src/app.rs` on Unix builds: a refresh worker, a
    details worker and a tree-preview worker race with user actions, confirmations and kills.
    Whatever a worker or the system answers arrives as a `Reply` or in a `World`. */
module App {
  import opened Orders
  import opened Observation
  import opened QueryModel
  import opened KillTargets
  import opened AppView
  import Display

  // ----- Messages

  /** What polling a worker's channel finds. */
  datatype Reply<+T> = Pending | Arrived(value: T) | Panicked | Disconnected

  datatype RefreshReply = Collected(entries: seq<Entry>) | Undescribable | CollectFailed

  datatype TreeReply = Planned(preview: TreePreview) | PlanFailed

  datatype Prepared = Handle | AlreadyGone | PrepareRefused

  /** The system's answers while one action runs. */
  datatype World = World(refreshStarts: bool, contextStarts: bool, treeStarts: bool, treeReply: Reply<TreeReply>,
                         prepared: Prepared, freshRows: Option<seq<Entry>>, freshContext: ProcessContext,
                         treeScan: Result<TreePreview, KillRefusal>)

  datatype AppError = RefreshStart | RefreshFailed | DetailsExited | DetailsStart | KillCollection

  datatype Status =
    | NoSelection | NoPid | UnsafePidBlocked | KillCancelled | TreeCancelled | LayoutCancelled | PreviewBusy
    | PreviewStartFailed | PreviewMismatch | PreviewFailed | Refused(reason: KillRefusal) | NotPrepared | AlreadyExited
    | NotCollected | Sent

  datatype Hint = PressYes | TypeForce | TypeTarget | TypeWord | InputTooLong | StillReading | StillEnumerating

  datatype Action =
    | MoveDown | MoveUp | OpenDetails | OpenHelp | OpenMessages | CloseModal | RequestKill(mode: KillMode)
    | RequestTreeKill(mode: KillMode) | Submit | InputAppend(ch: char) | InputBackspace | CancelKill | RefreshNow
    | StartSearch | SearchAppend(ch: char) | SearchBackspace | FinishSearch | CancelSearch | CycleSort | Quit | Noop

  /** One turn of the event loop. */
  datatype Event =
    | Act(action: Action, world: World)
    | PollRefresh(refresh: Reply<RefreshReply>, world: World)
    | PollContext(context: Reply<ProcessContext>, world: World)
    | PollTree(tree: Reply<TreeReply>)
    | Tick(due: bool, world: World)
    | LayoutTooSmall

  // ----- State

  datatype RefreshWorker = RefreshWorker(stale: bool)

  datatype ContextWorker = ContextWorker(key: RowKey, stale: bool)

  datatype KillConfirmation =
    KillConfirmation(target: KillTarget, mode: KillMode, requirement: Requirement, input: string, hint: Option<Hint>)

  datatype Stage = ProtectedRootStage | WordStage

  datatype TreeConfirmation = TreeConfirmation(target: KillTarget, mode: KillMode, preview: Option<TreePreview>,
                                               stage: Stage, input: string, hint: Option<Hint>)

  datatype Modal = NoModal | Details | Help | Messages | ConfirmKill(kill: KillConfirmation) | ConfirmTree(tree: TreeConfirmation)

  predicate Confirming(modal: Modal) {
    modal.ConfirmKill? || modal.ConfirmTree?
  }

  /** One signal handed to the system, with the facts that authorized it: the target as the
      modal opened on it, as the user confirmed it, and as fresh evidence showed it. */
  datatype Delivery =
    | Single(origin: KillTarget, confirmed: KillTarget, latest: KillTarget, mode: KillMode, requirement: Requirement,
             typed: string)
    | Tree(origin: KillTarget, confirmed: KillTarget, latest: KillTarget, mode: KillMode, rootPhrase: Option<string>,
           word: string, scan: TreePreview)

  /** Fresh evidence still shows the process the modal opened on. */
  predicate StillThere(origin: KillTarget, confirmed: KillTarget, latest: KillTarget) {
    && SameProcess(origin, confirmed)
    && latest.pid == origin.pid && latest.ports == origin.ports
    && latest.marker == origin.marker && origin.marker.Some?
    && (origin.name.Some? ==> latest.name == origin.name)
  }

  /** A protected target was confirmed by typing its PID or its name. */
  predicate TypedTarget(origin: KillTarget, phrase: string) {
    InputMatches(phrase, origin, ProtectedProcess)
  }

  predicate Authorized(settings: Settings, d: Delivery) {
    && StillThere(d.origin, d.confirmed, d.latest)
    && !IsUnsafePid(settings.ownPid, d.latest.pid)
    && match d
       case Single(origin, confirmed, latest, mode, requirement, typed) =>
         && requirement == RequirementFor(confirmed.isProtected, mode, settings.confirmForce)
         && InputMatches(typed, confirmed, requirement)
         && (origin.isProtected || latest.isProtected ==> TypedTarget(origin, typed))
       case Tree(origin, confirmed, latest, mode, rootPhrase, word, scan) =>
         && WordMatches(word, ScopeWord(mode))
         && Preflight(settings.ownPid, scan).None?
         && (origin.isProtected || latest.isProtected || RootProtected(scan) ==>
               rootPhrase.Some? && TypedTarget(origin, rootPhrase.value))
  }

  /** The target shown in an open single-process confirmation. */
  ghost predicate KillConsistent(settings: Settings, k: KillConfirmation, origin: KillTarget) {
    && SameProcess(origin, k.target) && k.target.isProtected == origin.isProtected
    && k.requirement == RequirementFor(k.target.isProtected, k.mode, settings.confirmForce)
    && !IsUnsafePid(settings.ownPid, k.target.pid)
    && Display.ByteLength(k.input) <= CONFIRMATION_INPUT_MAX_BYTES
  }

  /** The target and stage shown in an open tree confirmation. A protected root is either still
      to be typed, or was typed. */
  ghost predicate TreeConsistent(settings: Settings, t: TreeConfirmation, origin: KillTarget, rootPhrase: Option<string>) {
    && SameProcess(origin, t.target) && (origin.isProtected ==> t.target.isProtected)
    && !IsUnsafePid(settings.ownPid, t.target.pid)
    && Display.ByteLength(t.input) <= CONFIRMATION_INPUT_MAX_BYTES
    && (t.stage.ProtectedRootStage? ==> t.target.isProtected)
    && (t.stage.WordStage? && t.target.isProtected ==> rootPhrase.Some? && TypedTarget(origin, rootPhrase.value))
    && (t.preview.None? ==> t.input == "")
    && (t.preview.Some? ==> Preflight(settings.ownPid, t.preview.value).None?
                            && (RootProtected(t.preview.value) ==> t.target.isProtected))
  }

  /** The delivery is the answer the action gave to the confirmation that was open: what had been
      typed when it was submitted, or the one key that confirms a plain prompt. */
  ghost predicate Answers(was: Modal, action: Action, d: Delivery) {
    match d
    case Single(_, confirmed, _, mode, requirement, typed) =>
      && was.ConfirmKill? && confirmed == was.kill.target && mode == was.kill.mode && requirement == was.kill.requirement
      && (match action
          case Submit => typed == was.kill.input
          case InputAppend(ch) => was.kill.requirement == AnswerYes && (ch == 'y' || ch == 'Y') && typed == [ch]
          case _ => false)
    case Tree(_, confirmed, _, mode, _, word, _) =>
      was.ConfirmTree? && action == Submit && confirmed == was.tree.target && mode == was.tree.mode && word == was.tree.input
  }

  /** The action delivered nothing, or exactly one signal, which answers the open confirmation. */
  ghost predicate Logs(before: seq<Delivery>, after: seq<Delivery>, was: Modal, action: Action) {
    after == before || exists d :: after == before + [d] && Answers(was, action, d)
  }

  lemma NothingLogged(kills: seq<Delivery>, was: Modal, action: Action)
    ensures Logs(kills, kills, was, action)
  {
  }

  function ConfirmedTarget(modal: Modal): KillTarget
    requires Confirming(modal)
  {
    if modal.ConfirmKill? then modal.kill.target else modal.tree.target
  }

  /** A confirmation open now, when none has been opened since, was already open: for the same
      kind of kill and the same process, and it lost no protection. `before` and `after` count
      the confirmations opened so far. */
  ghost predicate Steady(was: Modal, before: nat, now: Modal, after: nat) {
    && before <= after
    && (before == after && Confirming(now) ==>
      && Confirming(was) && (was.ConfirmKill? <==> now.ConfirmKill?)
      && SameProcess(ConfirmedTarget(was), ConfirmedTarget(now))
      && (ConfirmedTarget(was).isProtected ==> ConfirmedTarget(now).isProtected))
  }

  lemma SteadyThen(a: Modal, x: nat, b: Modal, y: nat, c: Modal, z: nat)
    requires Steady(a, x, b, y) && Steady(b, y, c, z)
    ensures Steady(a, x, c, z)
  {
  }

  lemma SteadySame(modal: Modal, openings: nat)
    ensures Steady(modal, openings, modal, openings)
  {
  }

  class Application {
    const settings: Settings

    // The table.
    var entries: seq<Entry>
    var visible: seq<nat>
    var sorted: Option<SortedRows>
    var selected: Option<nat>
    var filterText: string
    var searchMode: bool
    var sortMode: SortMode
    var filterError: Option<QueryError>

    // Details of the selected row.
    var contextKey: Option<RowKey>
    var context: Option<ProcessContext>
    var contextWorker: Option<ContextWorker>
    var contextRequested: bool

    // Refreshing.
    var refreshWorker: Option<RefreshWorker>
    var refreshAfterKill: bool

    // Confirmations and messages.
    var modal: Modal
    var treeWorker: Option<nat>
    var killStatus: Option<Status>
    var latestError: Option<AppError>
    var workerFailure: bool
    var shouldQuit: bool

    // History. `generation` counts snapshots shown; `refreshEpoch` and `shownEpoch` say how many
    // deliveries preceded the refresh in flight and the rows on display.
    ghost var generation: nat
    ghost var workerGeneration: nat
    ghost var heldGeneration: nat
    ghost var refreshEpoch: nat
    ghost var shownEpoch: nat
    ghost var failed: bool
    ghost var openings: nat
    ghost var origin: KillTarget
    ghost var rootPhrase: Option<string>
    ghost var kills: seq<Delivery>

    // ----- Invariants

    ghost predicate TableTrue()
      reads `entries, `visible, `sorted, `selected, `filterText, `sortMode, `filterError
    {
      && Searchable()
      && CacheTrue(settings, entries, sorted)
      && Shows(settings, entries, filterText, sortMode, visible, filterError)
      && InRange()
      && (selected.None? <==> visible == [])
    }

    predicate Searchable()
      reads `filterText
    {
      settings.parse("") == Ok([]) && Display.ByteLength(filterText) <= FILTER_TEXT_MAX_BYTES
    }

    predicate InRange()
      reads `entries, `visible, `selected
    {
      AllBelow(visible, |entries|) && (selected.Some? ==> selected.value < |visible|)
    }

    /** A details read that may still change an open confirmation. */
    ghost predicate Live()
      reads `contextWorker, `contextRequested
    {
      contextRequested || (contextWorker.Some? && !contextWorker.value.stale)
    }

    /** Details on display were read for the rows on display. */
    ghost predicate DetailsTrue()
      reads `contextKey, `context, `contextWorker, `generation, `workerGeneration, `heldGeneration
    {
      && (contextKey.Some? <==> context.Some?)
      && (context.Some? ==> heldGeneration == generation)
      && (contextWorker.Some? && !contextWorker.value.stale ==> workerGeneration == generation)
    }

    /** ... and a queued read waits for a running one. */
    ghost predicate ContextTrue()
      reads `contextKey, `context, `contextWorker, `contextRequested, `generation, `workerGeneration, `heldGeneration, `failed
    {
      DetailsTrue() && (contextRequested ==> contextWorker.Some? || failed)
    }

    /** No refresh that began before the latest delivery can still be shown. */
    ghost predicate RefreshTrue()
      reads `refreshWorker, `refreshAfterKill, `refreshEpoch, `shownEpoch, `latestError, `failed, `kills
    {
      && (refreshWorker.Some? && !refreshWorker.value.stale ==> refreshEpoch == |kills|)
      && (refreshWorker.Some? && refreshWorker.value.stale ==> refreshAfterKill)
      && (refreshAfterKill && refreshWorker.None? ==> failed)
      && (shownEpoch == |kills| || refreshWorker.Some? || latestError.Some? || failed)
    }

    ghost predicate ConfirmTrue()
      reads `entries, `modal, `contextWorker, `contextRequested, `treeWorker, `failed, `origin, `rootPhrase
    {
      match modal
      case ConfirmKill(k) =>
        KillConsistent(settings, k, origin) && (Live() ==> Current(entries, k.target))
      case ConfirmTree(t) =>
        && TreeConsistent(settings, t, origin, rootPhrase)
        && (treeWorker.Some? ==> treeWorker.value == t.target.pid && t.preview.None?)
        && (t.preview.None? ==> treeWorker.Some? || failed)
        && (Live() ==> Current(entries, t.target))
      case _ => true
    }

    ghost predicate KillsTrue()
      reads `kills
    {
      forall d | d in kills :: Authorized(settings, d)
    }

    ghost predicate Valid()
      reads this
    {
      TableTrue() && ContextTrue() && RefreshTrue() && ConfirmTrue() && KillsTrue()
    }

    // ----- Selected row

    function SelectedRow(): (r: Option<Entry>)
      requires InRange()
      reads `entries, `visible, `selected
      ensures r.Some? ==> r.value in entries
    {
      if selected.None? then None else Some(entries[visible[selected.value]])
    }

    function SelectedKey(): Option<RowKey>
      requires InRange()
      reads `entries, `visible, `selected
    {
      if SelectedRow().Some? then Some(KeyOf(SelectedRow().value)) else None
    }

    // ----- The table

    /** `rebuild_visible_rows_preserving` */
    method RebuildPreserving(key: Option<RowKey>, fallback: nat)
      requires Searchable()
      requires CacheTrue(settings, entries, sorted)
      modifies `visible, `sorted, `selected, `filterError
      ensures TableTrue()
      ensures Selects(entries, visible, key, fallback, selected)
    {
      hide CacheTrue;
      hide Shows;
      visible, filterError, sorted := QueryTable(settings, entries, filterText, sortMode, sorted);
      selected := PreservedSelection(entries, visible, key, fallback);
    }

    /** `rebuild_visible_rows` */
    method Rebuild()
      requires Searchable()
      requires CacheTrue(settings, entries, sorted) && InRange()
      modifies `visible, `sorted, `selected, `filterError
      ensures TableTrue()
      ensures Selects(entries, visible, old(SelectedKey()), if old(selected).Some? then old(selected).value else 0, selected)
    {
      RebuildPreserving(SelectedKey(), if selected.Some? then selected.value else 0);
    }

    /** `ensure_sorted_row_indices`: an unfiltered query fills the cache for the current mode. */
    method EnsureSorted()
      requires TableTrue()
      modifies `sorted
      ensures TableTrue()
      ensures sorted == Some(SortedRows(sortMode, DisplayOrder(settings.env, Views(entries), sortMode)))
    {
      hide DisplayOrder;
      hide FreshQuery;
      hide Shows;
      DisplayOrderValid(settings.env, Views(entries), sortMode);
      if sorted.Some? && sorted.value.mode == sortMode && |sorted.value.indices| == |entries| {
        return;
      }
      var all := Options(false, None, None, settings.parse(""), sortMode, false);
      UnfilteredIsDisplayOrder(settings.env, Views(entries), all);
      var result := FreshQuery(settings.env, Views(entries), all);
      sorted := Some(SortedRows(sortMode, result.value.indices));
    }

    method SelectNext()
      requires TableTrue()
      modifies `selected
      ensures TableTrue()
      ensures old(selected).None? ==> selected.None?
      ensures old(selected).Some? ==> selected == Some(if old(selected).value + 1 < |visible| then old(selected).value + 1 else |visible| - 1)
    {
      if selected.Some? {
        var last := |visible| - 1;
        selected := Some(if selected.value + 1 < last then selected.value + 1 else last);
      }
    }

    method SelectPrevious()
      requires TableTrue()
      modifies `selected
      ensures TableTrue()
      ensures old(selected).None? ==> selected.None?
      ensures old(selected).Some? ==> selected == Some(if old(selected).value == 0 then 0 else old(selected).value - 1)
    {
      if selected.Some? {
        selected := Some(if selected.value == 0 then 0 else selected.value - 1);
      }
    }

    method AppendSearch(ch: char)
      requires TableTrue()
      modifies `filterText, `visible, `sorted, `selected, `filterError
      ensures TableTrue()
      ensures filterText == if searchMode && Display.ByteLength(old(filterText) + [ch]) <= FILTER_TEXT_MAX_BYTES
                            then old(filterText) + [ch] else old(filterText)
    {
      hide Shows;
      hide CacheTrue;
      hide DisplayOrder;
      if !searchMode {
        return;
      }
      assert (filterText + [ch])[..|filterText|] == filterText;
      if Display.ByteLength(filterText) + Display.Utf8Length(ch) > FILTER_TEXT_MAX_BYTES {
        return;
      }
      EnsureSorted();
      filterText := filterText + [ch];
      Rebuild();
    }

    method BackspaceSearch()
      requires TableTrue()
      modifies `filterText, `visible, `sorted, `selected, `filterError
      ensures TableTrue()
      ensures filterText == if searchMode then Shortened(old(filterText)) else old(filterText)
    {
      hide Shows;
      hide CacheTrue;
      hide DisplayOrder;
      if !searchMode {
        return;
      }
      EnsureSorted();
      ShorteningFits(filterText);
      filterText := Shortened(filterText);
      Rebuild();
    }

    method CancelSearching()
      requires TableTrue()
      modifies `searchMode, `filterText, `visible, `sorted, `selected, `filterError
      ensures TableTrue()
      ensures !searchMode && filterText == ""
    {
      searchMode := false;
      if filterText != "" {
        EnsureSorted();
        filterText := "";
        Rebuild();
      }
    }

    method CycleSorting()
      requires TableTrue()
      modifies `sortMode, `visible, `sorted, `selected, `filterError
      ensures TableTrue()
      ensures sortMode == old(sortMode).Next()
    {
      sortMode := sortMode.Next();
      Rebuild();
    }

    // ----- Details of the selected row

    /** `load_selected_process_context`: afterwards the selected row's details are on display,
        on their way, queued behind an older read, or reported as failed. */
    method LoadSelectedContext(starts: bool)
      requires InRange() && DetailsTrue()
      modifies `contextKey, `context, `contextWorker, `contextRequested, `workerGeneration, `latestError
      ensures DetailsTrue() && (contextRequested && !old(contextRequested) ==> contextWorker.Some?)
      ensures old(latestError).Some? ==> latestError.Some?
      ensures old(contextWorker).Some? ==> contextWorker == old(contextWorker)
      ensures old(contextWorker).None? ==> !contextRequested
      ensures
        || SelectedKey().None? || latestError == Some(DetailsStart)
        || (contextKey == SelectedKey() && context.Some?)
        || contextWorker == Some(ContextWorker(SelectedKey().value, false))
        || (contextRequested && contextWorker.Some?)
    {
      var key := SelectedKey();
      if contextKey == key && context.Some? {
        contextRequested := false;
        return;
      }
      if contextWorker.Some? {
        if Some(contextWorker.value.key) == key && !contextWorker.value.stale {
          return;
        }
        contextRequested, contextKey, context := true, None, None;
        return;
      }
      contextKey, context, contextRequested := None, None, false;
      if key.Some? {
        if starts {
          contextWorker := Some(ContextWorker(key.value, false));
          workerGeneration := generation;
        } else {
          latestError := Some(DetailsStart);
        }
      }
    }

    /** `start_pending_process_context_request` */
    method StartPendingContext(starts: bool)
      requires InRange() && DetailsTrue() && ConfirmTrue() && contextWorker.None?
      modifies `contextKey, `context, `contextWorker, `contextRequested, `workerGeneration, `latestError
      ensures ContextTrue() && ConfirmTrue() && !contextRequested
      ensures old(latestError).Some? ==> latestError.Some?
      ensures !old(contextRequested) ==> contextWorker.None? && contextKey == old(contextKey) && context == old(context)
    {
      hide Current;
      hide KillConsistent;
      hide TreeConsistent;
      hide AllBelow;
      if contextRequested {
        contextRequested := false;
        LoadSelectedContext(starts);
      }
    }

    method OpenSelectedDetails(starts: bool)
      requires TableTrue() && ContextTrue() && RefreshTrue() && ConfirmTrue()
      modifies `searchMode, `modal, `contextKey, `context, `contextWorker, `contextRequested, `workerGeneration, `latestError
      ensures ContextTrue() && RefreshTrue() && ConfirmTrue()
      ensures modal == if SelectedRow().Some? then Details else old(modal)
      ensures searchMode == (old(searchMode) && SelectedRow().None?)
    {
      hide Shows;
      hide CacheTrue;
      hide AllBelow;
      hide DetailsTrue;
      if SelectedRow().Some? {
        searchMode := false;
        LoadSelectedContext(starts);
        modal := Details;
      }
    }

    /** `apply_context_target_to_confirmations`: newer context, never weaker protection. */
    method ApplyContextTarget(target: KillTarget)
      requires ConfirmTrue()
      requires Confirming(modal) && ConfirmedTarget(modal).pid == target.pid ==>
        SameProcess(target, ConfirmedTarget(modal)) && (target.isProtected ==> ConfirmedTarget(modal).isProtected)
      modifies `modal
      ensures ConfirmTrue() && Steady(old(modal), openings, modal, openings)
      ensures !Confirming(old(modal)) || ConfirmedTarget(old(modal)).pid != target.pid ==> modal == old(modal)
      ensures Confirming(old(modal)) && ConfirmedTarget(old(modal)).pid == target.pid ==>
        Confirming(modal) && ConfirmedTarget(modal) == target.(isProtected := ConfirmedTarget(old(modal)).isProtected)
    {
      if modal.ConfirmKill? && modal.kill.target.pid == target.pid {
        var joined := target.(isProtected := target.isProtected || modal.kill.target.isProtected);
        modal := ConfirmKill(modal.kill.(target := joined));
      }
      if modal.ConfirmTree? && modal.tree.target.pid == target.pid {
        var joined := target.(isProtected := target.isProtected || modal.tree.target.isProtected);
        modal := ConfirmTree(modal.tree.(target := joined));
      }
    }

    /** A details worker died: its slot empties and the failure stays on record. */
    method AbandonContext()
      requires ContextTrue() && ConfirmTrue()
      modifies `contextWorker, `workerFailure, `failed
      ensures ContextTrue() && ConfirmTrue() && contextWorker.None? && failed && workerFailure
    {
      hide Current;
      hide KillConsistent;
      hide TreeConsistent;
      contextWorker := None;
      workerFailure, failed := true, true;
    }

    /** `poll_process_context` */
    method PollProcessContext(reply: Reply<ProcessContext>, starts: bool)
      requires Valid()
      modifies `contextKey, `context, `contextWorker, `contextRequested, `workerGeneration, `heldGeneration,
               `latestError, `workerFailure, `failed, `modal
      ensures Valid() && Steady(old(modal), openings, modal, openings)
      ensures !Confirming(old(modal)) ==> modal == old(modal)
      ensures old(contextWorker).Some? && old(contextWorker).value.stale ==> modal == old(modal)
      ensures old(contextWorker).None? || reply.Pending? ==>
        modal == old(modal) && context == old(context) && contextWorker == old(contextWorker)
      ensures old(contextWorker).Some? && !old(contextRequested) && reply.Arrived? ==>
        var key := old(contextWorker).value.key;
        if !old(contextWorker).value.stale && selected.Some? && ReadFor(entries[visible[selected.value]], key, reply.value)
        then contextKey == Some(key) && context == Some(reply.value)
        else contextKey == old(contextKey) && context == old(context)
    {
      hide ReadFor;
      hide TableTrue;
      hide DetailsTrue;
      hide KillsTrue;
      hide ConfirmTrue;
      if contextWorker.None? || reply.Pending? {
      } else if reply.Panicked? {
        AbandonContext();
      } else {
        FinishContext(reply, starts);
      }
    }

    /** The worker's slot empties; a live answer is delivered; the queued request starts. */
    method FinishContext(reply: Reply<ProcessContext>, starts: bool)
      requires TableTrue() && ContextTrue() && ConfirmTrue() && contextWorker.Some?
      requires reply.Arrived? || reply.Disconnected?
      modifies `contextKey, `context, `contextWorker, `contextRequested, `workerGeneration, `heldGeneration,
               `latestError, `modal
      ensures ContextTrue() && ConfirmTrue() && Steady(old(modal), openings, modal, openings)
      ensures old(latestError).Some? ==> latestError.Some?
      ensures !Confirming(old(modal)) ==> modal == old(modal)
      ensures old(contextWorker).value.stale ==> modal == old(modal)
      ensures reply.Disconnected? ==> latestError.Some?
      ensures var key := old(contextWorker).value.key;
        !old(contextRequested) ==>
          if reply.Arrived? && !old(contextWorker).value.stale && selected.Some?
             && ReadFor(entries[visible[selected.value]], key, reply.value)
          then contextKey == Some(key) && context == Some(reply.value)
          else contextKey == old(contextKey) && context == old(context)
    {
      hide ReadFor;
      hide Current;
      hide KillConsistent;
      hide TreeConsistent;
      hide Shows;
      hide CacheTrue;
      hide AllBelow;
      var worker := contextWorker.value;
      contextWorker := None;
      if reply.Disconnected? {
        latestError := Some(DetailsExited);
      } else if !worker.stale {
        DeliverContext(worker.key, reply.value);
      }
      StartPendingContext(starts);
    }

    /** The non-stale arrival in `poll_process_context`: details for the selected row, and newer
        facts for an open confirmation of the same process generation. */
    method DeliverContext(key: RowKey, found: ProcessContext)
      requires InRange() && DetailsTrue() && ConfirmTrue() && contextWorker.None?
      requires workerGeneration == generation
      requires Confirming(modal) ==> Current(entries, ConfirmedTarget(modal))
      modifies `contextKey, `context, `heldGeneration, `modal
      ensures DetailsTrue() && ConfirmTrue() && Steady(old(modal), openings, modal, openings)
      ensures !Confirming(old(modal)) ==> modal == old(modal)
      ensures if selected.Some? && ReadFor(entries[visible[selected.value]], key, found)
              then contextKey == Some(key) && context == Some(found)
              else contextKey == old(contextKey) && context == old(context)
      ensures modal != old(modal) ==>
        && Confirming(old(modal)) && key.pid == Some(ConfirmedTarget(old(modal)).pid)
        && (found.marker.None? || found.marker == ConfirmedTarget(old(modal)).marker)
    {
      hide TargetOf;
      hide Current;
      hide KillConsistent;
      hide TreeConsistent;
      hide AllBelow;
      if key.pid.Some? { TargetPid(entries, key.pid.value, Some(found)); }
      var updated := if key.pid.Some? then TargetOf(entries, key.pid.value, Some(found)) else None;
      if SelectedRow().Some? {
        var row := SelectedRow().value;
        if KeyOf(row) == key && SameGeneration(MarkerOf(row), found) {
          contextKey, context := Some(key), Some(found);
          heldGeneration := workerGeneration;
        }
      }
      if updated.Some? && SameGeneration(updated.value.marker, found) {
        if Confirming(modal) && ConfirmedTarget(modal).pid == key.pid.value {
          RereadKeeps(entries, ConfirmedTarget(modal), Some(found));
        }
        ApplyContextTarget(updated.value);
      }
    }

    // ----- Refreshing

    /** `refresh`: at most one refresh runs. */
    method Refresh(starts: bool)
      modifies `refreshWorker, `refreshEpoch, `latestError
      ensures old(refreshWorker).Some? ==>
        refreshWorker == old(refreshWorker) && refreshEpoch == old(refreshEpoch) && latestError == old(latestError)
      ensures old(refreshWorker).None? && starts ==>
        refreshWorker == Some(RefreshWorker(false)) && refreshEpoch == |kills| && latestError == old(latestError)
      ensures old(refreshWorker).None? && !starts ==> refreshWorker.None? && latestError == Some(RefreshStart)
      ensures old(RefreshTrue()) ==> RefreshTrue()
    {
      if refreshWorker.Some? {
        return;
      }
      if starts {
        refreshWorker := Some(RefreshWorker(false));
        refreshEpoch := |kills|;
      } else {
        latestError := Some(RefreshStart);
      }
    }

    /** `refresh_after_kill`: a refresh in flight is outdated and owes one successor. */
    method RefreshAfterKill(starts: bool)
      requires refreshWorker.Some? && refreshWorker.value.stale ==> refreshAfterKill
      requires refreshAfterKill && refreshWorker.None? ==> failed
      modifies `refreshWorker, `refreshAfterKill, `refreshEpoch, `latestError
      ensures RefreshTrue()
      ensures old(refreshWorker).Some? ==> refreshWorker == Some(RefreshWorker(true)) && refreshAfterKill
      ensures old(refreshWorker).None? ==> refreshWorker == if starts then Some(RefreshWorker(false)) else None
    {
      if refreshWorker.Some? {
        refreshWorker := Some(RefreshWorker(true));
        refreshAfterKill := true;
      } else {
        Refresh(starts);
      }
    }

    /** Nothing read for the rows so far counts any more. */
    method DropDetails()
      modifies `contextKey, `context, `contextWorker, `contextRequested
      ensures !contextRequested && contextKey.None? && context.None?
      ensures contextWorker == if old(contextWorker).None? then None
                               else Some(old(contextWorker).value.(stale := true))
    {
      if contextWorker.Some? {
        contextWorker := Some(contextWorker.value.(stale := true));
      }
      contextRequested, contextKey, context := false, None, None;
    }

    /** New rows: details read for the old ones must not reach them, and an open confirmation
        keeps its target. */
    method SwapRows(rows: seq<Entry>)
      requires TableTrue() && ConfirmTrue()
      modifies `entries, `sorted, `contextKey, `context, `contextWorker, `contextRequested, `generation
      ensures Searchable() && ContextTrue() && ConfirmTrue() && !Live() && context.None?
      ensures entries == rows && sorted.None? && generation == old(generation) + 1
    {
      hide Shows;
      hide CacheTrue;
      hide Current;
      hide KillConsistent;
      hide TreeConsistent;
      hide Shows;
      hide CacheTrue;
      hide Current;
      hide KillConsistent;
      hide TreeConsistent;
      entries, sorted, generation := rows, None, generation + 1;
      DropDetails();
    }

    /** `apply_network_snapshot`, of rows collected after `startedAt` deliveries. */
    method ApplySnapshot(rows: seq<Entry>, describable: bool, contextStarts: bool, ghost startedAt: nat)
      requires TableTrue() && ContextTrue() && ConfirmTrue() && refreshWorker.None?
      modifies `entries, `sorted, `visible, `selected, `filterError, `contextKey, `context, `contextWorker,
               `contextRequested, `workerGeneration, `latestError, `generation, `shownEpoch
      ensures TableTrue() && ContextTrue() && ConfirmTrue()
      ensures !describable ==> entries == old(entries) && latestError == Some(RefreshFailed)
                               && shownEpoch == old(shownEpoch) && generation == old(generation)
      ensures describable ==> entries == rows && shownEpoch == startedAt && generation == old(generation) + 1
      ensures describable && !modal.Details? ==> !Live() && context.None? && latestError.None?
    {
      hide Shows;
      hide CacheTrue;
      hide DetailsTrue;
      hide Current;
      hide KillConsistent;
      hide TreeConsistent;
      hide Selects;
      if !describable {
        latestError := Some(RefreshFailed);
        return;
      }
      ReplaceRows(rows, startedAt);
      if modal.Details? {
        LoadSelectedContext(contextStarts);
      }
    }

    /** New rows: caches and details go, the selection follows its row, an open confirmation
        keeps its target. */
    method ReplaceRows(rows: seq<Entry>, ghost startedAt: nat)
      requires TableTrue() && InRange() && ConfirmTrue()
      modifies `entries, `sorted, `visible, `selected, `filterError, `contextKey, `context, `contextWorker,
               `contextRequested, `latestError, `generation, `shownEpoch
      ensures TableTrue() && ContextTrue() && ConfirmTrue()
      ensures entries == rows && shownEpoch == startedAt && generation == old(generation) + 1
      ensures Selects(rows, visible, old(SelectedKey()), if old(selected).Some? then old(selected).value else 0, selected)
      ensures !Live() && context.None? && latestError.None?
    {
      hide *;
      var key, fallback := SelectedKey(), if selected.Some? then selected.value else 0;
      latestError, shownEpoch := None, startedAt;
      SwapRows(rows);
      NoCache(settings, rows);
      RebuildPreserving(key, fallback);
    }

    /** A refresh worker died: its slot empties and the failure stays on record. */
    method AbandonRefresh()
      requires ContextTrue() && RefreshTrue() && ConfirmTrue()
      modifies `refreshWorker, `workerFailure, `failed
      ensures ContextTrue() && RefreshTrue() && ConfirmTrue() && refreshWorker.None? && failed && workerFailure
    {
      hide Current;
      hide KillConsistent;
      hide TreeConsistent;
      refreshWorker := None;
      workerFailure, failed := true, true;
    }

    /** The refresh a kill asked for while another one was running. */
    method StartOwed(starts: bool)
      requires refreshWorker.None?
      requires shownEpoch == |kills| || latestError.Some? || failed || refreshAfterKill
      modifies `refreshWorker, `refreshAfterKill, `refreshEpoch, `latestError
      ensures RefreshTrue() && !refreshAfterKill
      ensures refreshWorker == if old(refreshAfterKill) && starts then Some(RefreshWorker(false)) else None
    {
      var again := refreshAfterKill;
      refreshAfterKill := false;
      if again {
        Refresh(starts);
      }
    }

    /** `poll_refresh`: an outdated reply is dropped; the refresh it owes starts now. */
    method PollRefreshWorker(reply: Reply<RefreshReply>, world: World)
      requires Valid()
      modifies `entries, `sorted, `visible, `selected, `filterError, `contextKey, `context, `contextWorker,
               `contextRequested, `workerGeneration, `latestError, `generation, `shownEpoch, `refreshWorker,
               `refreshAfterKill, `refreshEpoch, `workerFailure, `failed
      ensures Valid()
      ensures generation != old(generation) ==> shownEpoch == |kills|
      ensures old(refreshWorker).Some? && old(refreshWorker).value.stale ==> generation == old(generation) && entries == old(entries)
      ensures var shows := old(refreshWorker).Some? && !old(refreshWorker).value.stale && reply.Arrived? && reply.value.Collected?;
        if shows then entries == reply.value.entries && generation == old(generation) + 1 else entries == old(entries)
      ensures old(refreshWorker).Some? && reply.Pending? ==> refreshWorker == old(refreshWorker)
      ensures old(refreshWorker).Some? && reply.Panicked? ==> refreshWorker.None? && workerFailure
      ensures old(refreshWorker).Some? && (reply.Arrived? || reply.Disconnected?) ==>
        !refreshAfterKill
        && refreshWorker == if old(refreshAfterKill) && world.refreshStarts then Some(RefreshWorker(false)) else None
    {
      hide TableTrue;
      hide ContextTrue;
      hide ConfirmTrue;
      hide KillsTrue;
      if refreshWorker.None? || reply.Pending? {
        return;
      }
      if reply.Panicked? {
        AbandonRefresh();
        return;
      }
      var stale := refreshWorker.value.stale;
      refreshWorker := None;
      var result := if reply.Arrived? then reply.value else CollectFailed;
      if !stale {
        FinishRefresh(result, world.contextStarts, refreshEpoch);
      }
      StartOwed(world.refreshStarts);
    }

    /** `finish_snapshot_refresh_attempt` */
    method FinishRefresh(result: RefreshReply, contextStarts: bool, ghost startedAt: nat)
      requires TableTrue() && ContextTrue() && ConfirmTrue() && refreshWorker.None?
      modifies `entries, `sorted, `visible, `selected, `filterError, `contextKey, `context, `contextWorker,
               `contextRequested, `workerGeneration, `latestError, `generation, `shownEpoch
      ensures TableTrue() && ContextTrue() && ConfirmTrue()
      ensures result.Collected? ==>
        entries == result.entries && shownEpoch == startedAt && generation == old(generation) + 1
      ensures !result.Collected? ==>
        entries == old(entries) && latestError == Some(RefreshFailed) && shownEpoch == old(shownEpoch) && generation == old(generation)
    {
      match result
      case Collected(rows) => ApplySnapshot(rows, true, contextStarts, startedAt);
      case Undescribable => ApplySnapshot([], false, contextStarts, startedAt);
      case CollectFailed => latestError := Some(RefreshFailed);
    }

    // ----- Opening a confirmation

    /** `resolve_selected_kill_target`: the selected process, or the reason there is none. */
    method ResolveTarget(contextStarts: bool) returns (target: Option<KillTarget>)
      requires TableTrue() && ContextTrue() && RefreshTrue()
      modifies `killStatus, `contextKey, `context, `contextWorker, `contextRequested, `workerGeneration, `latestError
      ensures ContextTrue() && RefreshTrue()
      ensures target.None? && old(ConfirmTrue()) ==> ConfirmTrue()
      ensures target.Some? <==> Killable()
      ensures target.Some? ==> target == TargetOf(entries, SelectedRow().value.row.pid.value, old(ShownContext()))
      ensures target.Some? ==> killStatus == old(killStatus) && Current(entries, target.value)
      ensures target.Some? ==> !IsUnsafePid(settings.ownPid, target.value.pid)
      ensures target.None? ==>
        && contextWorker == old(contextWorker) && contextRequested == old(contextRequested) && latestError == old(latestError)
        && killStatus == Some(if SelectedRow().None? then NoSelection
                              else if SelectedRow().value.row.pid.None? then NoPid else UnsafePidBlocked)
    {
      hide Shows;
      hide CacheTrue;
      hide AllBelow;
      hide DetailsTrue;
      hide TargetOf;
      hide Current;
      hide KillConsistent;
      hide TreeConsistent;
      var row := SelectedRow();
      if row.None? {
        killStatus := Some(NoSelection);
        return None;
      }
      if row.value.row.pid.None? {
        killStatus := Some(NoPid);
        return None;
      }
      var pid := row.value.row.pid.value;
      if IsUnsafePid(settings.ownPid, pid) {
        killStatus := Some(UnsafePidBlocked);
        return None;
      }
      var shown := ShownContext();
      if shown.None? {
        LoadSelectedContext(contextStarts);
      }
      SelectedHasRows(entries, row.value, pid);
      OpeningIsCurrent(entries, pid, shown);
      target := TargetOf(entries, pid, shown);
    }

    /** `selected_process_context` */
    function ShownContext(): Option<ProcessContext>
      requires InRange()
      reads `entries, `visible, `selected, `contextKey, `context
    {
      if SelectedKey().Some? && contextKey == SelectedKey() then context else None
    }

    predicate Killable()
      requires InRange()
      reads `entries, `visible, `selected
    {
      SelectedRow().Some? && SelectedRow().value.row.pid.Some? && !IsUnsafePid(settings.ownPid, SelectedRow().value.row.pid.value)
    }

    /** The confirmation a request opens: for the selected process, in the requested mode, asking for
        what the mode and the target's protection demand, with nothing typed. */
    twostate predicate Opens(mode: KillMode)
      requires old(InRange())
      reads this
    {
      && modal.ConfirmKill? && modal.kill.mode == mode && modal.kill.input == ""
      && old(selected).Some? && old(entries[visible[selected.value]]).row.pid == Some(modal.kill.target.pid)
      && modal.kill.target.ownerUid == (if old(context).Some? && old(contextKey) == Some(KeyOf(old(entries[visible[selected.value]])))
                                        then old(context).value.ownerUid else None)
      && modal.kill.requirement == (if modal.kill.target.isProtected then ProtectedProcess
                                    else if mode == Force && settings.confirmForce then ForceWord else AnswerYes)
    }

    /** `request_kill` */
    method RequestKilling(mode: KillMode, contextStarts: bool)
      requires TableTrue() && ContextTrue() && RefreshTrue() && ConfirmTrue()
      modifies `searchMode, `killStatus, `contextKey, `context, `contextWorker, `contextRequested, `workerGeneration,
               `latestError, `modal, `origin, `openings
      ensures ContextTrue() && RefreshTrue() && ConfirmTrue() && Steady(old(modal), old(openings), modal, openings)
      ensures Killable() ==>
        Opens(mode) && openings == old(openings) + 1
        && Some(modal.kill.target) == TargetOf(entries, SelectedRow().value.row.pid.value, old(ShownContext()))
      ensures !Killable() ==> modal == old(modal) && openings == old(openings)
    {
      hide Shows;
      hide CacheTrue;
      hide AllBelow;
      hide DetailsTrue;
      hide ContextTrue;
      hide RefreshTrue;
      hide ConfirmTrue;
      hide Steady;
      hide Current;
      hide TargetOf;
      ghost var shown := ShownContext();
      searchMode := false;
      killStatus := None;
      SteadySame(modal, openings);
      var target := ResolveTarget(contextStarts);
      if target.Some? {
        TargetPid(entries, SelectedRow().value.row.pid.value, shown);
        OpenKill(target.value, mode);
      }
    }

    /** Opens the single-process confirmation; a protected target demands its PID or name. */
    method OpenKill(target: KillTarget, mode: KillMode)
      requires Current(entries, target) && !IsUnsafePid(settings.ownPid, target.pid)
      modifies `modal, `origin, `openings
      ensures ConfirmTrue() && openings == old(openings) + 1 && Steady(old(modal), old(openings), modal, openings)
      ensures modal == ConfirmKill(KillConfirmation(target, mode,
                                   RequirementFor(target.isProtected, mode, settings.confirmForce), "", None))
      ensures modal.kill.requirement == (if target.isProtected then ProtectedProcess
                                         else if mode == Force && settings.confirmForce then ForceWord else AnswerYes)
    {
      hide Current;
      modal := ConfirmKill(KillConfirmation(target, mode,
                                            RequirementFor(target.isProtected, mode, settings.confirmForce), "", None));
      origin, openings := target, openings + 1;
    }

    /** A tree confirmation just opened for the selected process. */
    predicate FreshTree(mode: KillMode)
      requires InRange()
      reads `entries, `visible, `selected, `modal
    {
      && Killable() && modal.ConfirmTree? && modal.tree.mode == mode && modal.tree.input == "" && modal.tree.preview.None?
      && selected.Some? && entries[visible[selected.value]].row.pid == Some(modal.tree.target.pid)
    }

    /** `request_tree_kill`: one preview scan at a time. */
    method RequestTreeKilling(mode: KillMode, world: World)
      requires Valid()
      modifies `searchMode, `killStatus, `contextKey, `context, `contextWorker, `contextRequested, `workerGeneration,
               `latestError, `modal, `origin, `openings, `rootPhrase, `treeWorker, `workerFailure, `failed
      ensures Valid() && Steady(old(modal), old(openings), modal, openings)
      ensures openings == old(openings) || openings == old(openings) + 1
      ensures openings == old(openings) && modal.ConfirmTree? ==> old(modal).ConfirmTree?
      ensures openings != old(openings) ==> Killable() && if world.treeStarts then FreshTree(mode) else modal == NoModal
      ensures Killable() && (old(treeWorker).None? || !world.treeReply.Pending?) ==> openings == old(openings) + 1
      ensures old(treeWorker).Some? && world.treeReply.Pending? ==> killStatus == Some(PreviewBusy) && modal == old(modal)
    {
      hide Steady;
      hide Preflight;
      hide Shows;
      hide CacheTrue;
      hide AllBelow;
      hide ContextTrue;
      hide RefreshTrue;
      hide ConfirmTrue;
      hide KillsTrue;
      hide FreshTree;
      hide Killable;
      ghost var was, before := modal, openings;
      searchMode := false;
      killStatus := None;
      PollTreePreview(world.treeReply);
      if treeWorker.Some? {
        killStatus := Some(PreviewBusy);
      } else {
        ghost var polled, count := modal, openings;
        StartTreeKill(mode, world);
        SteadyThen(was, before, polled, count, modal, openings);
      }
    }

    method StartTreeKill(mode: KillMode, world: World)
      requires TableTrue() && ContextTrue() && RefreshTrue() && ConfirmTrue() && treeWorker.None?
      modifies `killStatus, `contextKey, `context, `contextWorker, `contextRequested, `workerGeneration,
               `latestError, `modal, `origin, `openings, `rootPhrase, `treeWorker
      ensures ContextTrue() && RefreshTrue() && ConfirmTrue() && Steady(old(modal), old(openings), modal, openings)
      ensures Killable() && world.treeStarts ==>
        FreshTree(mode) && treeWorker == Some(modal.tree.target.pid)
        && Some(modal.tree.target) == TargetOf(entries, SelectedRow().value.row.pid.value, old(ShownContext()))
      ensures openings == if Killable() then old(openings) + 1 else old(openings)
      ensures Killable() && !world.treeStarts ==> modal == NoModal
      ensures !Killable() ==> modal == old(modal)
    {
      hide Shows;
      hide CacheTrue;
      hide AllBelow;
      hide DetailsTrue;
      hide ContextTrue;
      hide RefreshTrue;
      hide ConfirmTrue;
      hide Steady;
      hide Current;
      hide TargetOf;
      hide ShownContext;
      SteadySame(modal, openings);
      ghost var shown := ShownContext();
      var target := ResolveTarget(world.contextStarts);
      if target.Some? {
        TargetPid(entries, SelectedRow().value.row.pid.value, shown);
        OpenTree(target.value, mode, world.treeStarts);
      }
    }

    /** Opens the tree confirmation and starts its preview worker, or reports that it cannot. */
    method OpenTree(target: KillTarget, mode: KillMode, starts: bool)
      requires Current(entries, target) && !IsUnsafePid(settings.ownPid, target.pid) && treeWorker.None?
      modifies `modal, `origin, `openings, `rootPhrase, `treeWorker, `killStatus
      ensures ConfirmTrue() && openings == old(openings) + 1 && Steady(old(modal), old(openings), modal, openings)
      ensures starts ==> treeWorker == Some(target.pid) && modal == ConfirmTree(
        TreeConfirmation(target, mode, None, if target.isProtected then ProtectedRootStage else WordStage, "", None))
      ensures !starts ==> modal == NoModal && treeWorker.None?
    {
      hide Current;
      modal := ConfirmTree(TreeConfirmation(target, mode, None,
                                            if target.isProtected then ProtectedRootStage else WordStage, "", None));
      origin, rootPhrase, openings := target, None, openings + 1;
      if starts {
        treeWorker := Some(target.pid);
      } else {
        treeWorker, modal := None, NoModal;
        killStatus := Some(PreviewStartFailed);
      }
    }

    // ----- The tree preview

    method AbandonTree()
      requires ContextTrue() && RefreshTrue() && ConfirmTrue()
      modifies `treeWorker, `workerFailure, `failed
      ensures ContextTrue() && RefreshTrue() && ConfirmTrue() && treeWorker.None?
    {
      hide Current;
      hide KillConsistent;
      hide TreeConsistent;
      treeWorker := None;
      workerFailure, failed := true, true;
    }

    /** `poll_tree_preview`: the preview always belongs to the confirmation that is open. */
    method PollTreePreview(reply: Reply<TreeReply>)
      requires Valid()
      modifies `treeWorker, `workerFailure, `failed, `modal, `killStatus
      ensures Valid() && Steady(old(modal), openings, modal, openings)
      ensures !old(modal).ConfirmTree? ==> modal == old(modal)
      ensures killStatus != Some(PreviewMismatch) || killStatus == old(killStatus)
      ensures old(treeWorker).None? || reply.Pending? ==> treeWorker == old(treeWorker) && modal == old(modal)
      ensures old(treeWorker).Some? && !reply.Pending? ==> treeWorker.None?
      ensures old(treeWorker).Some? && old(modal).ConfirmTree? && reply.Arrived? && reply.value.Planned? ==>
        (modal.ConfirmTree? <==> Preflight(settings.ownPid, reply.value.preview).None?)
    {
      hide TableTrue;
      hide DetailsTrue;
      hide KillsTrue;
      hide Current;
      hide KillConsistent;
      hide TreeConsistent;
      hide Preflight;
      if treeWorker.None? || reply.Pending? {
        return;
      }
      if reply.Panicked? {
        AbandonTree();
        return;
      }
      var pid := treeWorker.value;
      treeWorker := None;
      ApplyTreePreview(pid, if reply.Arrived? then reply.value else PlanFailed);
    }

    /** `apply_tree_preview`: a scan may reveal a protected root, and typed input is discarded. */
    method ApplyTreePreview(pid: nat, result: TreeReply)
      requires treeWorker.None?
      requires modal.ConfirmTree? ==>
        TreeConsistent(settings, modal.tree, origin, rootPhrase) && (Live() ==> Current(entries, modal.tree.target))
      requires modal.ConfirmKill? ==> ConfirmTrue()
      modifies `modal, `killStatus
      ensures ConfirmTrue() && Steady(old(modal), openings, modal, openings)
      ensures !old(modal).ConfirmTree? ==> modal == old(modal) && killStatus == old(killStatus)
      ensures old(modal).ConfirmTree? && old(modal).tree.target.pid != pid ==>
        modal == NoModal && killStatus == Some(PreviewMismatch)
      ensures old(modal).ConfirmTree? && old(modal).tree.target.pid == pid ==>
        && (modal.ConfirmTree? <==> result.Planned? && Preflight(settings.ownPid, result.preview).None?)
        && (killStatus != Some(PreviewMismatch) || killStatus == old(killStatus))
      ensures old(modal).ConfirmTree? && modal.ConfirmTree? ==>
        var raised := RootProtected(result.preview) && !old(modal).tree.target.isProtected;
        modal.tree.preview == Some(result.preview) && modal.tree.input == ""
        && modal.tree.target == old(modal).tree.target.(isProtected := old(modal).tree.target.isProtected || raised)
        && modal.tree.stage == if raised then ProtectedRootStage else old(modal).tree.stage
    {
      hide TargetOf;
      hide Preflight;
      hide InputMatches;
      if !modal.ConfirmTree? {
        return;
      }
      var t := modal.tree;
      if t.target.pid != pid {
        modal, killStatus := NoModal, Some(PreviewMismatch);
        return;
      }
      if result.PlanFailed? {
        modal, killStatus := NoModal, Some(PreviewFailed);
        return;
      }
      var refusal := Preflight(settings.ownPid, result.preview);
      if refusal.Some? {
        modal, killStatus := NoModal, Some(Refused(refusal.value));
        return;
      }
      if RootProtected(result.preview) && !t.target.isProtected {
        t := t.(target := t.target.(isProtected := true), stage := ProtectedRootStage);
      }
      modal := ConfirmTree(t.(input := "", hint := None, preview := Some(result.preview)));
    }

    // ----- Typing

    /** `append_tree_input` */
    method AppendTree(ch: char)
      requires ConfirmTrue() && modal.ConfirmTree?
      modifies `modal
      ensures ConfirmTrue() && Steady(old(modal), openings, modal, openings) && modal.ConfirmTree?
      ensures modal.tree == old(modal).tree.(input := modal.tree.input, hint := modal.tree.hint)
      ensures modal.tree.input ==
        if old(modal).tree.preview.Some? && Display.ByteLength(old(modal).tree.input + [ch]) <= CONFIRMATION_INPUT_MAX_BYTES
        then old(modal).tree.input + [ch] else old(modal).tree.input
    {
      hide Current;
      var t := modal.tree;
      assert (t.input + [ch])[..|t.input|] == t.input;
      if t.preview.None? {
        modal := ConfirmTree(t.(hint := Some(StillEnumerating)));
      } else if Display.ByteLength(t.input) + Display.Utf8Length(ch) > CONFIRMATION_INPUT_MAX_BYTES {
        modal := ConfirmTree(t.(hint := Some(InputTooLong)));
      } else {
        modal := ConfirmTree(t.(input := t.input + [ch], hint := None));
      }
    }

    /** One more typed character, within the input's limit. */
    method TypeAnswer(ch: char)
      requires ConfirmTrue() && modal.ConfirmKill?
      modifies `modal
      ensures ConfirmTrue() && Steady(old(modal), openings, modal, openings)
      ensures modal.ConfirmKill? && modal.kill == old(modal).kill.(input := modal.kill.input, hint := modal.kill.hint)
      ensures modal.kill.input == if Display.ByteLength(old(modal).kill.input + [ch]) <= CONFIRMATION_INPUT_MAX_BYTES
                                  then old(modal).kill.input + [ch] else old(modal).kill.input
    {
      hide Display.Utf8Length;
      ConfirmedKill();
      hide ConfirmTrue;
      var k := modal.kill;
      assert (k.input + [ch])[..|k.input|] == k.input;
      if Display.ByteLength(k.input) + Display.Utf8Length(ch) > CONFIRMATION_INPUT_MAX_BYTES {
        ReplaceKill(k.(hint := Some(InputTooLong)));
      } else {
        ReplaceKill(k.(input := k.input + [ch], hint := None));
      }
    }

    /** `append_kill_input`; a plain prompt is answered by one key. */
    method AppendKill(ch: char, world: World)
      requires Valid() && modal.ConfirmKill?
      modifies `modal, `killStatus, `latestError, `refreshWorker, `refreshAfterKill, `refreshEpoch, `kills, `contextRequested
      ensures Valid() && Steady(old(modal), openings, modal, openings)
      ensures var k := old(modal).kill;
        if k.requirement != AnswerYes then
          kills == old(kills) && modal.ConfirmKill? && modal.kill == k.(input := modal.kill.input, hint := modal.kill.hint)
          && modal.kill.input == if Display.ByteLength(k.input + [ch]) <= CONFIRMATION_INPUT_MAX_BYTES
                                 then k.input + [ch] else k.input
        else if ch == 'y' || ch == 'Y' then Sends(k, [ch], world)
        else if ch == 'n' || ch == 'N' then kills == old(kills) && modal == NoModal && killStatus == Some(KillCancelled)
        else kills == old(kills) && modal == ConfirmKill(k.(hint := Some(PressYes)))
    {
      hide TableTrue;
      hide ContextTrue;
      hide RefreshTrue;
      hide KillsTrue;
      hide KillDeliveries;
      hide FollowedUp;
      hide InputMatches;
      hide KillConsistent;
      ConfirmedKill();
      hide ConfirmTrue;
      hide Confirming;
      var k := modal.kill;
      if k.requirement == AnswerYes {
        if ch == 'y' || ch == 'Y' {
          OneKeyAnswers(ch, k.target);
          ExecuteKill([ch], world);
        } else if ch == 'n' || ch == 'N' {
          CancelOne();
        } else {
          ReplaceKill(k.(hint := Some(PressYes)));
        }
        return;
      }
      TypeAnswer(ch);
    }

    /** Editing a confirmation changes nothing but its input and hint. */
    method ReplaceKill(k: KillConfirmation)
      requires ConfirmTrue() && modal.ConfirmKill?
      requires k == modal.kill.(input := k.input, hint := k.hint)
      requires Display.ByteLength(k.input) <= CONFIRMATION_INPUT_MAX_BYTES
      modifies `modal
      ensures ConfirmTrue() && Steady(old(modal), openings, modal, openings) && modal == ConfirmKill(k)
    {
      hide Current;
      modal := ConfirmKill(k);
    }

    /** `backspace_confirmation_input` */
    method BackspaceInput()
      requires ConfirmTrue()
      modifies `modal
      ensures ConfirmTrue() && Steady(old(modal), openings, modal, openings)
      ensures modal.ConfirmKill? <==> old(modal).ConfirmKill?
      ensures modal.ConfirmKill? ==> modal.kill == old(modal).kill.(input := Shortened(old(modal).kill.input), hint := None)
      ensures modal.ConfirmTree? <==> old(modal).ConfirmTree?
      ensures modal.ConfirmTree? ==> modal.tree == if modal.tree.preview.None? then old(modal).tree
                                     else old(modal).tree.(input := Shortened(old(modal).tree.input), hint := None)
    {
      hide Current;
      if modal.ConfirmTree? {
        if modal.tree.preview.Some? {
          ShorteningFits(modal.tree.input);
          modal := ConfirmTree(modal.tree.(input := Shortened(modal.tree.input), hint := None));
        }
      } else if modal.ConfirmKill? {
        ShorteningFits(modal.kill.input);
        modal := ConfirmKill(modal.kill.(input := Shortened(modal.kill.input), hint := None));
      }
    }

    /** `cancel_kill_confirmation` */
    method CancelOne()
      requires ContextTrue()
      modifies `contextRequested, `modal, `killStatus
      ensures ContextTrue() && ConfirmTrue()
      ensures modal == NoModal && killStatus == Some(KillCancelled) && !contextRequested
    {
      contextRequested, modal, killStatus := false, NoModal, Some(KillCancelled);
    }

    /** `cancel_confirmation` */
    method CancelConfirmation()
      requires ContextTrue()
      modifies `contextRequested, `modal, `killStatus
      ensures ContextTrue() && ConfirmTrue() && modal == NoModal && !contextRequested
      ensures killStatus == Some(if old(modal).ConfirmTree? then TreeCancelled else KillCancelled)
    {
      if modal.ConfirmTree? {
        contextRequested, modal, killStatus := false, NoModal, Some(TreeCancelled);
      } else {
        CancelOne();
      }
    }

    // ----- Delivering

    /** `process_context_loading_for_pid` */
    predicate Loading(pid: nat)
      requires InRange()
      reads `entries, `visible, `selected, `contextWorker, `contextRequested
    {
      || (contextWorker.Some? && contextWorker.value.key.pid == Some(pid))
      || (contextRequested && SelectedRow().Some? && SelectedRow().value.row.pid == Some(pid))
    }

    lemma ConfirmedKill()
      requires ConfirmTrue() && modal.ConfirmKill?
      ensures KillConsistent(settings, modal.kill, origin)
      ensures Display.ByteLength(modal.kill.input) <= CONFIRMATION_INPUT_MAX_BYTES
    {
      hide Current;
    }

    /** Details of the process are being read, or will be for the selected row. */
    ghost predicate BeingRead(pid: nat)
      requires InRange()
      reads `entries, `visible, `selected, `contextWorker, `contextRequested
    {
      || (contextWorker.Some? && contextWorker.value.key.pid == Some(pid))
      || (contextRequested && selected.Some? && entries[visible[selected.value]].row.pid == Some(pid))
    }

    /** The confirmed kill was delivered, unless its process is still being read. */
    twostate predicate Sends(k: KillConfirmation, typed: string, world: World)
      requires old(InRange())
      reads this
    {
      var waits := old(BeingRead(k.target.pid));
      && kills == old(kills) + (if waits then [] else KillDeliveries(k, world, origin, typed))
      && modal == (if waits then ConfirmKill(k.(hint := Some(StillReading))) else NoModal)
    }

    /** `execute_kill_confirmation_with`: the signal goes out exactly when every gate passes. */
    method ExecuteKill(typed: string, world: World)
      requires Valid() && modal.ConfirmKill?
      requires InputMatches(typed, modal.kill.target, modal.kill.requirement)
      modifies `modal, `killStatus, `latestError, `refreshWorker, `refreshAfterKill, `refreshEpoch, `kills
      ensures Valid() && Steady(old(modal), openings, modal, openings)
      ensures Sends(old(modal).kill, typed, world)
      ensures kills != old(kills) ==> FollowedUp(old(refreshWorker), world.refreshStarts)
    {
      hide Shows;
      hide CacheTrue;
      hide AllBelow;
      hide ContextTrue;
      hide RefreshTrue;
      hide KillsTrue;
      hide KillDeliveries;
      hide FollowedUp;
      hide InputMatches;
      ConfirmedKill();
      hide ConfirmTrue;
      var k := modal.kill;
      if Loading(k.target.pid) {
        ReplaceKill(k.(hint := Some(StillReading)));
        return;
      }
      modal := NoModal;
      DeliverKill(k, typed, world);
    }

    /** A delivery outdates the refresh in flight, or starts one. */
    ghost predicate FollowedUp(before: Option<RefreshWorker>, starts: bool)
      reads `refreshWorker, `refreshAfterKill
    {
      && (before.Some? ==> refreshWorker == Some(RefreshWorker(true)) && refreshAfterKill)
      && (before.None? && starts ==> refreshWorker == Some(RefreshWorker(false)))
    }

    /** Prepare a handle, collect afresh, revalidate, check the evidence, signal. */
    method DeliverKill(k: KillConfirmation, typed: string, world: World)
      requires RefreshTrue() && KillsTrue() && KillConsistent(settings, k, origin)
      requires InputMatches(typed, k.target, k.requirement)
      modifies `killStatus, `latestError, `refreshWorker, `refreshAfterKill, `refreshEpoch, `kills
      ensures RefreshTrue() && KillsTrue()
      ensures kills == old(kills) + KillDeliveries(k, world, origin, typed)
      ensures kills != old(kills) ==> FollowedUp(old(refreshWorker), world.refreshStarts)
    {
      hide KillConsistent;
      hide Revalidate;
      hide SingleEvidence;
      hide InputMatches;
      hide Authorized;
      if !world.prepared.Handle? {
        RefuseUnprepared(world);
        return;
      }
      if world.freshRows.None? {
        latestError, killStatus := Some(KillCollection), Some(NotCollected);
        return;
      }
      var checked := Revalidate(k.target, world.freshRows.value, Some(world.freshContext));
      var refusal := if checked.Err? then Some(checked.error) else SingleEvidence(k.target, checked.value);
      if refusal.Some? {
        killStatus := Some(Refused(refusal.value));
        RefreshAfterKill(world.refreshStarts);
        return;
      }
      SingleAuthorized(settings, k, origin, checked.value, typed, world.freshRows.value, Some(world.freshContext));
      kills := kills + [Single(origin, k.target, checked.value, k.mode, k.requirement, typed)];
      killStatus := Some(Sent);
      RefreshAfterKill(world.refreshStarts);
    }

    /** Only a process that is already gone is worth a refresh. */
    method RefuseUnprepared(world: World)
      requires RefreshTrue() && !world.prepared.Handle?
      modifies `killStatus, `latestError, `refreshWorker, `refreshAfterKill, `refreshEpoch
      ensures RefreshTrue()
      ensures world.prepared.PrepareRefused? ==> refreshWorker == old(refreshWorker)
      ensures killStatus == Some(if world.prepared.AlreadyGone? then AlreadyExited else NotPrepared)
    {
      if world.prepared.AlreadyGone? {
        killStatus := Some(AlreadyExited);
        RefreshAfterKill(world.refreshStarts);
      } else {
        killStatus := Some(NotPrepared);
      }
    }

    /** The confirmed tree kill was delivered, unless its unidentified root is still being read. */
    twostate predicate SendsTree(t: TreeConfirmation, world: World)
      requires old(InRange())
      reads this
    {
      var waits := t.target.marker.None? && old(BeingRead(t.target.pid));
      && kills == old(kills) + (if waits then [] else TreeDeliveries(t, world, settings.ownPid, origin, rootPhrase))
      && modal == (if waits then ConfirmTree(t.(hint := Some(StillReading))) else NoModal)
    }

    /** `execute_tree_kill_confirmation_with`: pin, revalidate, rescan, then signal. */
    method ExecuteTree(world: World)
      requires Valid() && modal.ConfirmTree? && modal.tree.stage.WordStage?
      requires WordMatches(modal.tree.input, ScopeWord(modal.tree.mode))
      modifies `modal, `killStatus, `latestError, `refreshWorker, `refreshAfterKill, `refreshEpoch, `kills, `treeWorker
      ensures Valid() && Steady(old(modal), openings, modal, openings)
      ensures SendsTree(old(modal).tree, world)
      ensures kills != old(kills) ==> FollowedUp(old(refreshWorker), world.refreshStarts)
    {
      hide Shows;
      hide CacheTrue;
      hide AllBelow;
      hide ContextTrue;
      hide RefreshTrue;
      hide KillsTrue;
      hide TreeDeliveries;
      hide FollowedUp;
      hide Current;
      hide WordMatches;
      hide InputMatches;
      hide Preflight;
      var t := modal.tree;
      if t.target.marker.None? && Loading(t.target.pid) {
        modal := ConfirmTree(t.(hint := Some(StillReading)));
        return;
      }
      treeWorker, modal := None, NoModal;
      DeliverTree(t, world);
    }

    /** Pin the root, collect afresh, revalidate, rescan the tree, signal. */
    method DeliverTree(t: TreeConfirmation, world: World)
      requires RefreshTrue() && KillsTrue() && TreeConsistent(settings, t, origin, rootPhrase)
      requires t.stage.WordStage? && WordMatches(t.input, ScopeWord(t.mode))
      modifies `killStatus, `latestError, `refreshWorker, `refreshAfterKill, `refreshEpoch, `kills
      ensures RefreshTrue() && KillsTrue()
      ensures kills == old(kills) + TreeDeliveries(t, world, settings.ownPid, origin, rootPhrase)
      ensures kills != old(kills) ==> FollowedUp(old(refreshWorker), world.refreshStarts)
    {
      hide TreeConsistent;
      hide Revalidate;
      hide FreshTreeGates;
      hide WordMatches;
      hide Authorized;
      if !world.prepared.Handle? {
        RefuseUnprepared(world);
        return;
      }
      if world.freshRows.None? {
        latestError, killStatus := Some(KillCollection), Some(NotCollected);
        return;
      }
      var checked := Revalidate(t.target, world.freshRows.value, Some(world.freshContext));
      if checked.Err? {
        killStatus := Some(Refused(checked.error));
        RefreshAfterKill(world.refreshStarts);
        return;
      }
      var refusal := FreshTreeGates(settings.ownPid, world.treeScan, t.target.isProtected);
      if refusal.Some? {
        killStatus := Some(Refused(refusal.value));
        if refusal.value.RootExited? {
          RefreshAfterKill(world.refreshStarts);
        }
        return;
      }
      var scan := PassedScan(settings.ownPid, world.treeScan, t.target.isProtected);
      TreeAuthorized(settings, t, origin, rootPhrase, checked.value, scan, world.freshRows.value, Some(world.freshContext));
      kills := kills + [Tree(origin, t.target, checked.value, t.mode, rootPhrase, t.input, scan)];
      killStatus := Some(Sent);
      RefreshAfterKill(world.refreshStarts);
    }

    /** `submit_kill_confirmation` */
    method SubmitKill(world: World)
      requires Valid() && modal.ConfirmKill?
      modifies `modal, `killStatus, `latestError, `refreshWorker, `refreshAfterKill, `refreshEpoch, `kills
      ensures Valid() && Steady(old(modal), openings, modal, openings)
      ensures InputMatches(old(modal).kill.input, old(modal).kill.target, old(modal).kill.requirement) ==>
        Sends(old(modal).kill, old(modal).kill.input, world)
      ensures !InputMatches(old(modal).kill.input, old(modal).kill.target, old(modal).kill.requirement) ==>
        kills == old(kills) && modal == ConfirmKill(old(modal).kill.(hint := Some(HintFor(old(modal).kill.requirement))))
    {
      hide TableTrue;
      hide InputMatches;
      hide KillDeliveries;
      var k := modal.kill;
      if InputMatches(k.input, k.target, k.requirement) {
        ExecuteKill(k.input, world);
      } else {
        ReplaceKill(k.(hint := Some(HintFor(k.requirement))));
      }
    }

    /** `tree_submit_verdict` and `submit_tree_confirmation`: the root stage only advances to
        the word stage; only the word stage executes. */
    method SubmitTree(world: World)
      requires Valid() && modal.ConfirmTree?
      modifies `modal, `killStatus, `latestError, `refreshWorker, `refreshAfterKill, `refreshEpoch, `kills, `treeWorker, `rootPhrase
      ensures Valid() && Steady(old(modal), openings, modal, openings)
      ensures var t := old(modal).tree;
        var confirmed := t.preview.Some? && t.stage.WordStage? && WordMatches(t.input, ScopeWord(t.mode));
        && (confirmed ==> SendsTree(t, world))
        && (!confirmed ==> kills == old(kills) && modal.ConfirmTree?)
      ensures modal.ConfirmTree? && modal.tree.stage != old(modal).tree.stage ==>
        modal.tree.stage.WordStage? && TypedTarget(origin, old(modal).tree.input) && modal.tree.input == ""
    {
      hide TableTrue;
      hide DetailsTrue;
      hide KillsTrue;
      hide Current;
      hide InputMatches;
      hide WordMatches;
      hide Preflight;
      hide TreeDeliveries;
      var t := modal.tree;
      if t.preview.None? {
        modal := ConfirmTree(t.(hint := Some(StillEnumerating)));
      } else if t.stage.ProtectedRootStage? {
        if InputMatches(t.input, t.target, ProtectedProcess) {
          ConfirmationSurvives(t.input, t.target, origin);
          rootPhrase := Some(t.input);
          modal := ConfirmTree(t.(stage := WordStage, input := "", hint := None));
        } else {
          modal := ConfirmTree(t.(hint := Some(TypeTarget)));
        }
      } else if WordMatches(t.input, ScopeWord(t.mode)) {
        ExecuteTree(world);
      } else {
        modal := ConfirmTree(t.(hint := Some(TypeWord)));
      }
    }

    // ----- The event loop

    constructor (settings: Settings, sortMode: SortMode, first: RefreshReply)
      requires settings.parse("") == Ok([])
      ensures Valid() && kills == [] && openings == 0
    {
      this.settings, this.sortMode := settings, sortMode;
      entries, visible, sorted, selected := [], [], None, None;
      filterText, searchMode, filterError := "", false, None;
      contextKey, context, contextWorker, contextRequested := None, None, None, false;
      refreshWorker, refreshAfterKill := None, false;
      modal, treeWorker, killStatus, latestError := NoModal, None, None, None;
      workerFailure, shouldQuit := false, false;
      generation, workerGeneration, heldGeneration, refreshEpoch, shownEpoch := 0, 0, 0, 0, 0;
      failed, openings, origin, rootPhrase := false, 0, KillTarget(0, None, false, {}, None, None, 0), None;
      kills := [];
      new;
      hide *;
      EmptyValid();
      Populate(first);
    }

    /** The empty application is consistent. */
    ghost method EmptyValid()
      requires settings.parse("") == Ok([]) && filterText == ""
      requires entries == [] && visible == [] && sorted.None? && selected.None? && filterError.None?
      requires contextKey.None? && context.None? && contextWorker.None? && !contextRequested
      requires refreshWorker.None? && !refreshAfterKill && modal == NoModal && kills == [] && shownEpoch == 0
      ensures Valid()
    {
      hide Shows;
      hide CacheTrue;
      NoCache(settings, []);
      EmptyTable(settings, "", sortMode);
    }

    /** `refresh_blocking`, before any worker exists. */
    method Populate(first: RefreshReply)
      requires Valid() && refreshWorker.None? && kills == [] && shownEpoch == 0
      modifies this
      ensures Valid() && kills == [] && openings == old(openings)
      ensures first.Collected? ==> entries == first.entries
    {
      hide TableTrue;
      hide ContextTrue;
      hide ConfirmTrue;
      hide KillsTrue;
      FinishRefresh(first, false, 0);
    }

    method CloseModal()
      requires ContextTrue()
      modifies `modal, `contextRequested
      ensures ContextTrue() && ConfirmTrue() && modal == NoModal && !contextRequested
    {
      modal, contextRequested := NoModal, false;
    }

    method ShowPage(page: Modal)
      requires page.Help? || page.Messages?
      modifies `modal, `searchMode
      ensures ConfirmTrue() && modal == page && searchMode == (old(searchMode) && !page.Messages?)
    {
      if page.Messages? {
        searchMode := false;
      }
      modal := page;
    }

    /** What a keystroke does to an open single-process confirmation. */
    twostate predicate KeyedKill(k: KillConfirmation, action: Action, world: World)
      requires old(InRange())
      reads this
    {
      match action
      case Submit =>
        if InputMatches(k.input, k.target, k.requirement) then Sends(k, k.input, world)
        else
          kills == old(kills)
          && modal == ConfirmKill(k.(hint := Some(if k.requirement == AnswerYes then PressYes
                                                  else if k.requirement == ForceWord then TypeForce else TypeTarget)))
      case InputAppend(ch) =>
        if k.requirement == AnswerYes && (ch == 'y' || ch == 'Y') then Sends(k, [ch], world)
        else if k.requirement == AnswerYes && (ch == 'n' || ch == 'N') then
          kills == old(kills) && modal == NoModal && killStatus == Some(KillCancelled)
        else if k.requirement == AnswerYes then kills == old(kills) && modal == ConfirmKill(k.(hint := Some(PressYes)))
        else
          kills == old(kills) && modal.ConfirmKill? && modal.kill == k.(input := modal.kill.input, hint := modal.kill.hint)
          && modal.kill.input == if Display.ByteLength(k.input + [ch]) <= CONFIRMATION_INPUT_MAX_BYTES
                                 then k.input + [ch] else k.input
      case InputBackspace =>
        kills == old(kills) && modal == ConfirmKill(k.(input := Shortened(k.input), hint := None))
      case _ => kills == old(kills) && modal == NoModal && killStatus == Some(KillCancelled)
    }

    /** ... and to an open tree confirmation. */
    twostate predicate KeyedTree(t: TreeConfirmation, action: Action, world: World)
      requires old(InRange())
      reads this
    {
      match action
      case Submit =>
        if t.preview.Some? && t.stage.WordStage? && WordMatches(t.input, ScopeWord(t.mode)) then SendsTree(t, world)
        else kills == old(kills) && modal.ConfirmTree?
      case InputAppend(ch) =>
        kills == old(kills) && modal.ConfirmTree? && modal.tree == t.(input := modal.tree.input, hint := modal.tree.hint)
        && modal.tree.input == if t.preview.Some? && Display.ByteLength(t.input + [ch]) <= CONFIRMATION_INPUT_MAX_BYTES
                               then t.input + [ch] else t.input
      case InputBackspace =>
        kills == old(kills)
        && modal == ConfirmTree(if t.preview.None? then t else t.(input := Shortened(t.input), hint := None))
      case _ => kills == old(kills) && modal == NoModal && killStatus == Some(TreeCancelled)
    }

    twostate predicate Keyed(action: Action, world: World)
      requires old(InRange())
      reads this
    {
      match old(modal)
      case ConfirmKill(k) => KeyedKill(k, action, world)
      case ConfirmTree(t) => KeyedTree(t, action, world)
      case _ =>
        && kills == old(kills)
        && (if action.CancelKill? then modal == NoModal && killStatus == Some(KillCancelled) else modal == old(modal))
    }

    predicate IsKey(action: Action) {
      action.Submit? || action.InputAppend? || action.InputBackspace? || action.CancelKill?
    }

    lemma SingleLogged(before: seq<Delivery>, k: KillConfirmation, action: Action, typed: string, world: World)
      requires (action == Submit && typed == k.input)
               || (action.InputAppend? && k.requirement == AnswerYes && (action.ch == 'y' || action.ch == 'Y') && typed == [action.ch])
      ensures Logs(before, before + KillDeliveries(k, world, origin, typed), ConfirmKill(k), action)
    {
      hide Revalidate;
      hide SingleEvidence;
      var sent := KillDeliveries(k, world, origin, typed);
      if sent == [] {
        assert before + sent == before;
      } else {
        assert sent == [sent[0]] && Answers(ConfirmKill(k), action, sent[0]);
      }
    }

    lemma TreeLogged(before: seq<Delivery>, t: TreeConfirmation, world: World)
      ensures Logs(before, before + TreeDeliveries(t, world, settings.ownPid, origin, rootPhrase), ConfirmTree(t), Submit)
    {
      hide Revalidate;
      hide FreshTreeGates;
      var sent := TreeDeliveries(t, world, settings.ownPid, origin, rootPhrase);
      if sent == [] {
        assert before + sent == before;
      } else {
        assert sent == [sent[0]] && Answers(ConfirmTree(t), Submit, sent[0]);
      }
    }

    method KeyKill(action: Action, world: World)
      requires Valid() && modal.ConfirmKill? && IsKey(action)
      modifies this
      ensures Valid() && Steady(old(modal), old(openings), modal, openings)
      ensures KeyedKill(old(modal).kill, action, world)
      ensures Logs(old(kills), kills, old(modal), action)
    {
      hide Shows;
      hide CacheTrue;
      hide AllBelow;
      hide ContextTrue;
      hide RefreshTrue;
      hide ConfirmTrue;
      hide KillsTrue;
      hide InputMatches;
      hide KillDeliveries;
      hide Answers;
      NothingLogged(kills, modal, action);
      ghost var k := modal.kill;
      match action
      case Submit =>
        SingleLogged(kills, k, action, k.input, world);
        SubmitKill(world);
      case InputAppend(ch) =>
        if k.requirement == AnswerYes && (ch == 'y' || ch == 'Y') { SingleLogged(kills, k, action, [ch], world); }
        AppendKill(ch, world);
      case InputBackspace => BackspaceInput();
      case CancelKill => CancelConfirmation();
    }

    method KeyTree(action: Action, world: World)
      requires Valid() && modal.ConfirmTree? && IsKey(action)
      modifies this
      ensures Valid() && Steady(old(modal), old(openings), modal, openings)
      ensures KeyedTree(old(modal).tree, action, world)
      ensures Logs(old(kills), kills, old(modal), action)
    {
      hide Shows;
      hide CacheTrue;
      hide AllBelow;
      hide ContextTrue;
      hide RefreshTrue;
      hide ConfirmTrue;
      hide KillsTrue;
      hide InputMatches;
      hide WordMatches;
      hide TreeDeliveries;
      hide Answers;
      NothingLogged(kills, modal, action);
      match action
      case Submit =>
        ghost var before, t := kills, modal.tree;
        SubmitTree(world);
        if t.preview.Some? && t.stage.WordStage? { TreeLogged(before, t, world); }
      case InputAppend(ch) => AppendTree(ch);
      case InputBackspace => BackspaceInput();
      case CancelKill => CancelConfirmation();
    }

    /** Keystrokes go to whichever confirmation is open. */
    method ApplyInput(action: Action, world: World)
      requires Valid() && IsKey(action)
      modifies this
      ensures Valid() && Steady(old(modal), old(openings), modal, openings)
      ensures Keyed(action, world)
      ensures Logs(old(kills), kills, old(modal), action)
    {
      hide Shows;
      hide CacheTrue;
      hide AllBelow;
      hide ContextTrue;
      hide RefreshTrue;
      hide ConfirmTrue;
      hide KillsTrue;
      hide KeyedKill;
      hide KeyedTree;
      hide Answers;
      NothingLogged(kills, modal, action);
      if modal.ConfirmTree? {
        KeyTree(action, world);
      } else if modal.ConfirmKill? {
        KeyKill(action, world);
      } else if action.CancelKill? {
        CancelConfirmation();
      }
    }

    /** Selection, search, sorting and quitting: what each key changes, and what it leaves alone. */
    twostate predicate Navigated(action: Action)
      reads this
    {
      && searchMode == (if action.StartSearch? then true
                        else if action.FinishSearch? || action.CancelSearch? then false else old(searchMode))
      && shouldQuit == (old(shouldQuit) || action.Quit?)
      && sortMode == (if action.CycleSort? then old(sortMode).Next() else old(sortMode))
      && filterText == (match action
                        case SearchAppend(ch) =>
                          if old(searchMode) && Display.ByteLength(old(filterText) + [ch]) <= FILTER_TEXT_MAX_BYTES
                          then old(filterText) + [ch] else old(filterText)
                        case SearchBackspace => if old(searchMode) then Shortened(old(filterText)) else old(filterText)
                        case CancelSearch => ""
                        case _ => old(filterText))
      && (action.MoveDown? && old(selected).Some? ==>
            selected == Some(if old(selected).value + 1 < |visible| then old(selected).value + 1 else |visible| - 1))
      && (action.MoveUp? && old(selected).Some? ==>
            selected == Some(if old(selected).value == 0 then 0 else old(selected).value - 1))
      && (action.Quit? || action.Noop? || action.StartSearch? || action.FinishSearch? ==> selected == old(selected))
      && entries == old(entries) && modal == old(modal) && kills == old(kills)
    }

    method ApplyNavigation(action: Action)
      requires TableTrue()
      requires action.MoveDown? || action.MoveUp? || action.StartSearch? || action.SearchAppend? || action.SearchBackspace?
               || action.FinishSearch? || action.CancelSearch? || action.CycleSort? || action.Quit? || action.Noop?
      modifies `searchMode, `shouldQuit, `sortMode, `filterText, `visible, `sorted, `selected, `filterError
      ensures TableTrue()
      ensures Navigated(action)
    {
      hide TableTrue;
      hide Display.ByteLength;
      hide Shortened;
      match action
      case MoveDown => SelectNext();
      case MoveUp => SelectPrevious();
      case StartSearch => searchMode := true;
      case SearchAppend(ch) => AppendSearch(ch);
      case SearchBackspace => BackspaceSearch();
      case FinishSearch => searchMode := false;
      case CancelSearch => CancelSearching();
      case CycleSort => CycleSorting();
      case Quit => shouldQuit := true;
      case _ =>
    }

    predicate IsPage(action: Action) {
      action.OpenHelp? || action.OpenMessages? || action.CloseModal?
    }

    /** The pages; messages also end a search. */
    twostate predicate Paged(action: Action)
      reads this
    {
      && kills == old(kills)
      && modal == (if action.OpenHelp? then Help else if action.OpenMessages? then Messages else NoModal)
      && searchMode == (old(searchMode) && !action.OpenMessages?)
    }

    method ApplyPage(action: Action)
      requires Valid() && IsPage(action)
      modifies this
      ensures Valid() && Steady(old(modal), old(openings), modal, openings) && kills == old(kills)
      ensures Paged(action)
    {
      hide TableTrue;
      hide ContextTrue;
      hide RefreshTrue;
      hide ConfirmTrue;
      hide KillsTrue;
      match action
      case OpenHelp => ShowPage(Help);
      case OpenMessages => ShowPage(Messages);
      case CloseModal => CloseModal();
    }

    predicate IsRequest(action: Action) {
      action.OpenDetails? || action.RequestKill? || action.RequestTreeKill? || action.RefreshNow?
    }

    /** What a request opens or starts. */
    twostate predicate Requested(action: Action, world: World)
      requires old(InRange())
      reads this
    {
      && kills == old(kills)
      && match action
         case OpenDetails => modal == if old(selected).Some? then Details else old(modal)
         case RequestKill(mode) => if old(Killable()) then Opens(mode) else modal == old(modal)
         case RequestTreeKill(mode) =>
           && (openings == old(openings) ==> modal.ConfirmTree? ==> old(modal).ConfirmTree?)
           && (openings != old(openings) ==>
                 InRange() && Killable() && if world.treeStarts then FreshTree(mode) else modal == NoModal)
           && (old(Killable()) && old(treeWorker).None? ==> openings == old(openings) + 1)
         case RefreshNow =>
           modal == old(modal)
           && refreshWorker == if old(refreshWorker).Some? then old(refreshWorker)
                               else if world.refreshStarts then Some(RefreshWorker(false)) else None
         case _ => true
    }

    method ApplyKillRequest(action: Action, world: World)
      requires Valid() && (action.RequestKill? || action.RequestTreeKill?)
      modifies this
      ensures Valid() && Steady(old(modal), old(openings), modal, openings)
      ensures Requested(action, world) && kills == old(kills)
    {
      hide FreshTree;
      hide Killable;
      hide Opens;
      hide Shows;
      hide CacheTrue;
      hide AllBelow;
      hide ContextTrue;
      hide RefreshTrue;
      hide ConfirmTrue;
      hide KillsTrue;
      match action
      case RequestKill(mode) => RequestKilling(mode, world.contextStarts);
      case RequestTreeKill(mode) => RequestTreeKilling(mode, world);
    }

    method ApplyRequest(action: Action, world: World)
      requires Valid() && IsRequest(action)
      modifies this
      ensures Valid() && Steady(old(modal), old(openings), modal, openings)
      ensures Requested(action, world) && kills == old(kills)
    {
      hide Shows;
      hide CacheTrue;
      hide AllBelow;
      hide ContextTrue;
      hide RefreshTrue;
      hide ConfirmTrue;
      hide KillsTrue;
      if action.OpenDetails? {
        OpenSelectedDetails(world.contextStarts);
      } else if action.RefreshNow? {
        Refresh(world.refreshStarts);
      } else {
        ApplyKillRequest(action, world);
      }
    }

    /** What each action does. */
    twostate predicate Applied(action: Action, world: World)
      requires old(InRange())
      reads this
    {
      if IsKey(action) then Keyed(action, world)
      else if IsRequest(action) then Requested(action, world)
      else if IsPage(action) then Paged(action)
      else Navigated(action)
    }

    /** `apply_action` */
    method ApplyAction(action: Action, world: World)
      requires Valid()
      modifies this
      ensures Valid() && Steady(old(modal), old(openings), modal, openings)
      ensures Applied(action, world)
      ensures Logs(old(kills), kills, old(modal), action)
    {
      hide Shows;
      hide CacheTrue;
      hide AllBelow;
      hide ContextTrue;
      hide RefreshTrue;
      hide ConfirmTrue;
      hide KillsTrue;
      hide Keyed;
      hide Requested;
      hide Paged;
      hide Navigated;
      hide Answers;
      hide Steady;
      SteadySame(modal, openings);
      NothingLogged(kills, modal, action);
      if IsKey(action) {
        ApplyInput(action, world);
      } else if IsRequest(action) {
        ApplyRequest(action, world);
      } else if IsPage(action) {
        ApplyPage(action);
      } else {
        ApplyNavigation(action);
      }
    }

    /** An automatic refresh never starts under an open confirmation (`refresh_due_at`). */
    method TickRefresh(due: bool, world: World)
      requires Valid()
      modifies `refreshWorker, `refreshEpoch, `latestError
      ensures Valid()
      ensures refreshWorker == if !Confirming(modal) && old(refreshWorker).None? && due && world.refreshStarts
                               then Some(RefreshWorker(false)) else old(refreshWorker)
    {
      hide TableTrue;
      hide ContextTrue;
      hide ConfirmTrue;
      hide KillsTrue;
      if !Confirming(modal) && refreshWorker.None? && due {
        Refresh(world.refreshStarts);
      }
    }

    /** One turn of the loop. Only an action can deliver, and what it delivers answers the
        confirmation that was open. */
    method Handle(event: Event)
      requires Valid()
      modifies this
      ensures Valid() && Steady(old(modal), old(openings), modal, openings) && old(kills) <= kills
      ensures event.Act? ==> Applied(event.action, event.world) && Logs(old(kills), kills, old(modal), event.action)
      ensures !event.Act? ==> kills == old(kills)
      ensures event.LayoutTooSmall? ==> modal == NoModal && killStatus == Some(LayoutCancelled)
    {
      hide Shows;
      hide CacheTrue;
      hide AllBelow;
      hide Applied;
      hide Answers;
      hide ContextTrue;
      hide RefreshTrue;
      hide ConfirmTrue;
      hide KillsTrue;
      match event
      case Act(action, world) => ApplyAction(action, world);
      case PollRefresh(reply, world) => PollRefreshWorker(reply, world);
      case PollContext(reply, world) => PollProcessContext(reply, world.contextStarts);
      case PollTree(reply) => PollTreePreview(reply);
      case Tick(due, world) => TickRefresh(due, world);
      case LayoutTooSmall =>
        CancelConfirmation();
        killStatus := Some(LayoutCancelled);
    }

    /** Every run, from any reachable state, through any interleaving of actions and answers. */
    method Run(events: seq<Event>)
      requires Valid()
      modifies this
      ensures Valid() && old(kills) <= kills
      ensures Steady(old(modal), old(openings), modal, openings)
      ensures forall d | d in kills :: Authorized(settings, d)
      ensures Shows(settings, entries, filterText, sortMode, visible, filterError)
      ensures modal.ConfirmKill? && modal.kill.target.isProtected ==> modal.kill.requirement == ProtectedProcess
      ensures modal.ConfirmTree? && modal.tree.target.isProtected ==>
        modal.tree.stage.ProtectedRootStage? || (rootPhrase.Some? && TypedTarget(origin, rootPhrase.value))
      ensures refreshWorker.Some? && !refreshWorker.value.stale ==> refreshEpoch == |kills|
    {
      for i := 0 to |events|
        invariant Valid() && old(kills) <= kills
        invariant Steady(old(modal), old(openings), modal, openings)
      {
        ghost var was, before := modal, openings;
        Handle(events[i]);
        SteadyThen(old(modal), old(openings), was, before, modal, openings);
      }
      hide Authorized;
      hide Shows;
    }
  }

  function MarkerOf(e: Entry): Option<StartMarker> {
    if e.identity.Some? then Some(e.identity.value.startMarker) else None
  }

  function Shortened(s: string): string {
    if s == "" then s else s[..|s| - 1]
  }

  lemma ShorteningFits(s: string)
    ensures Display.ByteLength(Shortened(s)) <= Display.ByteLength(s)
  {
  }

  function HintFor(requirement: Requirement): Hint {
    match requirement
    case AnswerYes => PressYes
    case ForceWord => TypeForce
    case ProtectedProcess => TypeTarget
  }

  lemma OneKeyAnswers(ch: char, target: KillTarget)
    requires ch == 'y' || ch == 'Y'
    ensures InputMatches([ch], target, AnswerYes)
  {
    assert Trim([ch]) == [ch];
    assert Map(AsciiLower, [ch]) == ['y'] == Map(AsciiLower, "y");
  }

  // ----- What reaches the system

  /** The one signal a confirmed kill sends, or none. */
  function KillDeliveries(k: KillConfirmation, world: World, origin: KillTarget, typed: string): seq<Delivery> {
    if !world.prepared.Handle? || world.freshRows.None? then []
    else
      var checked := Revalidate(k.target, world.freshRows.value, Some(world.freshContext));
      if checked.Err? || SingleEvidence(k.target, checked.value).Some? then []
      else [Single(origin, k.target, checked.value, k.mode, k.requirement, typed)]
  }

  /** The one signal a confirmed tree kill sends, or none. */
  function TreeDeliveries(t: TreeConfirmation, world: World, ownPid: nat, origin: KillTarget, rootPhrase: Option<string>)
    : seq<Delivery>
  {
    if !world.prepared.Handle? || world.freshRows.None? then []
    else
      var checked := Revalidate(t.target, world.freshRows.value, Some(world.freshContext));
      if checked.Err? || FreshTreeGates(ownPid, world.treeScan, t.target.isProtected).Some? then []
      else [Tree(origin, t.target, checked.value, t.mode, rootPhrase, t.input,
                 PassedScan(ownPid, world.treeScan, t.target.isProtected))]
  }

  /** The scan behind a passed gate. */
  function PassedScan(ownPid: nat, scan: Result<TreePreview, KillRefusal>, rootConfirmed: bool): (preview: TreePreview)
    requires FreshTreeGates(ownPid, scan, rootConfirmed).None?
    ensures scan == Ok(preview)
  {
    scan.value
  }

  /** Passing every gate from a consistent confirmation authorizes the signal. */
  lemma SingleAuthorized(settings: Settings, k: KillConfirmation, origin: KillTarget, latest: KillTarget, typed: string,
                         rows: seq<Entry>, context: Option<ProcessContext>)
    requires KillConsistent(settings, k, origin) && InputMatches(typed, k.target, k.requirement)
    requires Revalidate(k.target, rows, context) == Ok(latest)
    ensures Authorized(settings, Single(origin, k.target, latest, k.mode, k.requirement, typed))
  {
    RevalidatedSame(k.target, rows, context, latest);
    hide Revalidate;
    ConfirmationSurvives(typed, origin, k.target);
    hide InputMatches;
  }

  lemma TreeAuthorized(settings: Settings, t: TreeConfirmation, origin: KillTarget, rootPhrase: Option<string>,
                       latest: KillTarget, scan: TreePreview, rows: seq<Entry>, context: Option<ProcessContext>)
    requires TreeConsistent(settings, t, origin, rootPhrase) && t.stage.WordStage?
    requires WordMatches(t.input, ScopeWord(t.mode))
    requires Revalidate(t.target, rows, context) == Ok(latest)
    requires FreshTreeGates(settings.ownPid, Ok(scan), t.target.isProtected).None?
    ensures Authorized(settings, Tree(origin, t.target, latest, t.mode, rootPhrase, t.input, scan))
  {
    RevalidatedSame(t.target, rows, context, latest);
    hide Revalidate;
    hide Preflight;
    hide InputMatches;
  }
}
