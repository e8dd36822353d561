/** The modules tab of the web UI: the per-module snapshot of rules taken
    after each load, the dirty list derived from it, single-module updates,
    the batch save that stops at the first rejected write, the search and
    mode filter, and the page size that grows as the list is scrolled. */
module ModulesTab {
  import opened Wrappers
  import opened Seqs
  import opened Strings
  import opened WebTypes
  import UiStore
  import ModuleStore

  const PAGE_SIZE: nat := 20

  /** The rules snapshot: module id to the rules it had after the last load. */
  type Snapshot = map<string, Rules>

  predicate UniqueIds(ms: seq<WebModule>) {
    forall i, j :: 0 <= i < j < |ms| ==> ms[i].id != ms[j].id
  }

  /** `load`'s snapshot: every module's id maps to its rules, the later
      module winning for a repeated id (see `SnapshotEntry`). */
  function SnapshotOf(ms: seq<WebModule>): (r: Snapshot)
    ensures forall id :: id in r <==> exists i :: 0 <= i < |ms| && ms[i].id == id
  {
    if ms == [] then map[]
    else
      var rest := SnapshotOf(Init(ms));
      assert forall i :: 0 <= i < |ms| - 1 ==> Init(ms)[i] == ms[i];
      rest[Last(ms).id := Last(ms).rules]
  }

  /** A module whose id does not occur later has its own rules in the
      snapshot. */
  lemma {:induction false} SnapshotEntry(ms: seq<WebModule>, i: nat)
    requires i < |ms| && forall j :: i < j < |ms| ==> ms[j].id != ms[i].id
    ensures ms[i].id in SnapshotOf(ms) && SnapshotOf(ms)[ms[i].id] == ms[i].rules
    decreases |ms|
  {
    if i < |ms| - 1 {
      SnapshotEntry(Init(ms), i);
    }
  }

  /** `dirtyModules`' test: a module without a snapshot entry is never
      dirty; one with an entry is dirty when its rules differ from it. */
  function DirtyTest(snap: Snapshot): WebModule -> bool {
    (m: WebModule) => m.id in snap && m.rules != snap[m.id]
  }

  /** `dirtyModules`: the dirty modules, in store order. */
  function DirtyModules(ms: seq<WebModule>, snap: Snapshot): (r: seq<WebModule>)
    ensures IsSubsequence(r, ms)
    ensures forall m :: m in r <==> m in ms && m.id in snap && m.rules != snap[m.id]
  {
    Filter(ms, DirtyTest(snap))
  }

  /** Right after a load, with distinct ids, no module is dirty. */
  lemma NoneDirtyAfterLoad(ms: seq<WebModule>)
    requires UniqueIds(ms)
    ensures DirtyModules(ms, SnapshotOf(ms)) == []
  {
    var snap := SnapshotOf(ms);
    forall m | m in ms
      ensures !DirtyTest(snap)(m)
    {
      var i :| 0 <= i < |ms| && ms[i] == m;
      SnapshotEntry(ms, i);
    }
  }

  /** With a repeated id the earlier module is compared with the later
      one's rules, so a module is dirty right after a load. */
  lemma RepeatedIdLooksDirty(a: WebModule, b: WebModule)
    requires a.id == b.id && a.rules != b.rules
    ensures DirtyModules([a, b], SnapshotOf([a, b])) != []
  {
    var snap := SnapshotOf([a, b]);
    SnapshotEntry([a, b], 1);
    assert a in DirtyModules([a, b], snap);
  }

  /** The card's "dirty" styling: the snapshot entry is not exactly the
      module's rules, which includes a missing entry. */
  predicate CardDirty(snap: Snapshot, m: WebModule) {
    !(m.id in snap && snap[m.id] == m.rules)
  }

  /** The card styling and the dirty list agree for modules with a snapshot
      entry, and disagree for those without one. */
  lemma CardDirtyVersusList(snap: Snapshot, m: WebModule)
    ensures m.id in snap ==> (CardDirty(snap, m) <==> DirtyTest(snap)(m))
    ensures m.id !in snap ==> CardDirty(snap, m) && !DirtyTest(snap)(m)
  {
  }

  function HasId(id: string): WebModule -> bool {
    (m: WebModule) => m.id == id
  }

  /** `updateModule`: the first module with the id is replaced by its
      transform; an unknown id leaves the list alone. */
  function UpdateModule(ms: seq<WebModule>, id: string, transform: WebModule -> WebModule): (r: seq<WebModule>)
    ensures |r| == |ms|
    ensures (forall i :: 0 <= i < |ms| ==> ms[i].id != id) ==> r == ms
    ensures forall k :: 0 <= k < |ms| && ms[k].id == id && (forall i :: 0 <= i < k ==> ms[i].id != id) ==>
      r[k] == transform(ms[k]) && forall i :: 0 <= i < |ms| && i != k ==> r[i] == ms[i]
  {
    match FirstMatch(ms, HasId(id))
    case None => ms
    case Some(k) => ms[k := transform(ms[k])]
  }

  function WithDefaultMode(mode: string): WebModule -> WebModule {
    (m: WebModule) => m.(rules := m.rules.(defaultMode := mode))
  }

  /** `updateDefaultMode` changes the default mode of the module's rules and
      nothing else in the list. */
  lemma UpdateDefaultModeOnlyMode(ms: seq<WebModule>, k: nat, mode: string)
    requires k < |ms| && UniqueIds(ms)
    ensures var r := UpdateModule(ms, ms[k].id, WithDefaultMode(mode));
            r[k].rules.defaultMode == mode && r[k].rules.paths == ms[k].rules.paths
            && r[k].id == ms[k].id && r[k].name == ms[k].name
            && r[k].isMounted == ms[k].isMounted && r[k].mode == ms[k].mode
            && forall i :: 0 <= i < |ms| && i != k ==> r[i] == ms[i]
  {
  }

  /** `filteredModules`' test. */
  function Shown(query: string, filterType: string, showUnmounted: bool): WebModule -> bool {
    (m: WebModule) =>
      (m.isMounted || showUnmounted)
      && (Contains(ToLower(m.name), ToLower(query)) || Contains(ToLower(m.id), ToLower(query)))
      && (filterType == "all" || m.mode == filterType)
  }

  /** `filteredModules`: the shown modules, in store order. */
  function FilteredModules(ms: seq<WebModule>, query: string, filterType: string, showUnmounted: bool): (r: seq<WebModule>)
    ensures IsSubsequence(r, ms)
    ensures forall m :: m in r <==> m in ms && Shown(query, filterType, showUnmounted)(m)
  {
    Filter(ms, Shown(query, filterType, showUnmounted))
  }

  /** With no query, the "all" filter and unmounted modules shown, every
      module is listed. */
  lemma EmptyFilterShowsAll(ms: seq<WebModule>)
    ensures FilteredModules(ms, "", "all", true) == ms
  {
    forall i | 0 <= i < |ms|
      ensures Shown("", "all", true)(ms[i])
    {
      assert HasSubstringAt(ToLower(ms[i].name), ToLower(""), 0);
    }
    FilterKeepsAll(ms, Shown("", "all", true));
  }

  /** Unmounted modules are hidden unless asked for. */
  lemma HiddenUnmounted(ms: seq<WebModule>, query: string, filterType: string)
    ensures forall m :: m in FilteredModules(ms, query, filterType, false) ==> m.isMounted
  {
  }

  /** The rendered page: the first `count` shown modules. */
  function Page(filtered: seq<WebModule>, count: nat): (r: seq<WebModule>)
    ensures |r| == if count < |filtered| then count else |filtered|
    ensures forall i :: 0 <= i < |r| ==> r[i] == filtered[i]
  {
    filtered[..if count < |filtered| then count else |filtered|]
  }

  /** `getModeClass`: unmounted, magic, or anything else as overlay. */
  function ModeClass(m: WebModule): (r: string)
    ensures r == "mode-ignore" <==> !m.isMounted
    ensures r == "mode-magic" <==> m.isMounted && m.mode == "magic"
    ensures r == "mode-auto" <==> m.isMounted && m.mode != "magic"
  {
    if !m.isMounted then "mode-ignore" else if m.mode == "magic" then "mode-magic" else "mode-auto"
  }

  /** `getModeLabel`: the locale's word for the same three cases. */
  function ModeLabel(l: Locale, m: WebModule): (r: string)
    ensures ModeClass(m) == "mode-ignore" ==> r == MessageOrNull(l, "modules.modes.none", "Unmounted")
    ensures ModeClass(m) == "mode-magic" ==> r == MessageOrNull(l, "modules.modes.magic", "Magic")
    ensures ModeClass(m) == "mode-auto" ==> r == MessageOrNull(l, "modules.modes.auto", "Overlay")
  {
    if !m.isMounted then MessageOrNull(l, "modules.modes.none", "Unmounted")
    else if m.mode == "magic" then MessageOrNull(l, "modules.modes.magic", "Magic")
    else MessageOrNull(l, "modules.modes.auto", "Overlay")
  }

  /** The modules the store counts as magic are exactly the ones the tab
      labels magic; the ones it counts as auto are labelled overlay. */
  lemma LabelsAgreeWithStats(m: WebModule)
    ensures ModuleStore.MountedWithMode("magic")(m) <==> ModeClass(m) == "mode-magic"
    ensures ModuleStore.MountedWithMode("auto")(m) ==> ModeClass(m) == "mode-auto"
  {
  }

  /** The outcome of one `saveModuleRules` call. */
  datatype WriteOutcome = Written | Rejected(message: string)

  /** The writes `performSave` makes: dirty modules in order, up to and
      including the first rejected one, and that rejection's message. */
  function SaveRun(dirty: seq<WebModule>, outcomes: seq<WriteOutcome>): (seq<WebModule>, Option<string>)
    requires |outcomes| >= |dirty|
  {
    if dirty == [] then ([], None)
    else match outcomes[0]
      case Rejected(msg) => ([dirty[0]], Some(msg))
      case Written =>
        var rest := SaveRun(dirty[1..], outcomes[1..]);
        ([dirty[0]] + rest.0, rest.1)
  }

  /** Without a rejection every dirty module is written; otherwise the writes
      are a prefix of the dirty modules that ends at the first rejection, whose
      message is reported. */
  lemma {:induction false} SaveRunStopsAtFirstRejection(dirty: seq<WebModule>, outcomes: seq<WriteOutcome>)
    requires |outcomes| >= |dirty|
    ensures var r := SaveRun(dirty, outcomes);
      r.1.None? ==> r.0 == dirty && forall i :: 0 <= i < |dirty| ==> outcomes[i] == Written
    ensures var r := SaveRun(dirty, outcomes);
      r.1.Some? ==>
        0 < |r.0| <= |dirty| && r.0 == dirty[..|r.0|]
        && outcomes[|r.0| - 1] == Rejected(r.1.value)
        && forall i :: 0 <= i < |r.0| - 1 ==> outcomes[i] == Written
    decreases |dirty|
  {
    if dirty != [] && outcomes[0] == Written {
      SaveRunStopsAtFirstRejection(dirty[1..], outcomes[1..]);
      var rest := SaveRun(dirty[1..], outcomes[1..]);
      assert forall i :: 1 <= i < |dirty| ==> outcomes[i] == outcomes[1..][i - 1];
      if rest.1.Some? {
        assert [dirty[0]] + rest.0 == dirty[..|rest.0| + 1];
      }
    }
  }

  /** One step of `SaveRun` from position `i`: a rejection ends the run there,
      a write goes on from `i + 1`. */
  lemma SaveRunAt(dirty: seq<WebModule>, outcomes: seq<WriteOutcome>, i: nat)
    requires |outcomes| >= |dirty| && i < |dirty|
    ensures outcomes[i].Rejected? ==>
      SaveRun(dirty[i..], outcomes[i..]) == ([dirty[i]], Some(outcomes[i].message))
    ensures outcomes[i].Written? ==>
      var rest := SaveRun(dirty[i + 1..], outcomes[i + 1..]);
      SaveRun(dirty[i..], outcomes[i..]) == ([dirty[i]] + rest.0, rest.1)
  {
    assert dirty[i..][0] == dirty[i] && outcomes[i..][0] == outcomes[i];
    assert dirty[i..][1..] == dirty[i + 1..];
    assert outcomes[i..][1..] == outcomes[i + 1..];
  }

  /** `performSave`'s loop: each dirty module is written in turn and the
      first rejection ends the loop. */
  method WriteInOrder(dirty: seq<WebModule>, outcomes: seq<WriteOutcome>)
    returns (written: seq<WebModule>, failure: Option<string>)
    requires |outcomes| >= |dirty|
    ensures (written, failure) == SaveRun(dirty, outcomes)
  {
    written := [];
    failure := None;
    var i := 0;
    ghost var run := SaveRun(dirty, outcomes);
    ghost var rest := run;
    assert dirty[i..] == dirty && outcomes[i..] == outcomes;
    while i < |dirty| && failure.None?
      invariant 0 <= i <= |dirty|
      invariant failure.None? ==> rest == SaveRun(dirty[i..], outcomes[i..])
      invariant failure.None? ==> run.0 == written + rest.0 && run.1 == rest.1
      invariant failure.Some? ==> run.0 == written && run.1 == failure
      decreases |dirty| - i, if failure.None? then 1 else 0
    {
      SaveRunAt(dirty, outcomes, i);
      ghost var before := written;
      written := written + [dirty[i]];
      if outcomes[i].Rejected? {
        failure := Some(outcomes[i].message);
      } else {
        ghost var next := SaveRun(dirty[i + 1..], outcomes[i + 1..]);
        assert rest.0 == [dirty[i]] + next.0;
        assert before + ([dirty[i]] + next.0) == written + next.0;
        rest := next;
        i := i + 1;
      }
    }
    if failure.None? {
      assert dirty[i..] == [];
      assert rest == ([], None);
      assert written + rest.0 == written;
    }
  }

  /** `e.message || "Failed to save"`. */
  function FailureText(message: string): string {
    if message != "" then message else "Failed to save"
  }

  /** The tab's own state. */
  class ModulesTab {
    var searchQuery: string
    var filterType: string
    var showUnmounted: bool
    var expandedId: Option<string>
    var snapshot: Snapshot
    var isSaving: bool
    var visibleCount: nat

    constructor ()
      ensures searchQuery == "" && filterType == "all" && !showUnmounted && expandedId == None
      ensures snapshot == map[] && !isSaving && visibleCount == PAGE_SIZE
    {
      searchQuery := "";
      filterType := "all";
      showUnmounted := false;
      expandedId := None;
      snapshot := map[];
      isSaving := false;
      visibleCount := PAGE_SIZE;
    }

    /** The cards on screen. */
    function Rendered(store: ModuleStore.ModuleStore): seq<WebModule>
      reads this, store
    {
      Page(FilteredModules(store.modules, searchQuery, filterType, showUnmounted), visibleCount)
    }

    /** `load` after the store's load resolved (it always resolves): the
        snapshot is rebuilt from the store, fetched or not. */
    method FinishLoad(store: ModuleStore.ModuleStore, ui: UiStore.UiStore, fetched: Option<seq<WebModule>>, now: nat)
      requires store != ui as object
      modifies this, store, ui
      ensures ui.locale == old(ui.locale) && ui.storage == old(ui.storage) && ui.fixBottomNav == old(ui.fixBottomNav)
      ensures ui.lang == old(ui.lang) && ui.localePath == old(ui.localePath) && ui.isReady == old(ui.isReady)
      ensures fetched.Some? ==> store.modules == fetched.value
      ensures fetched.None? ==> store.modules == old(store.modules)
      ensures !store.loading && snapshot == SnapshotOf(store.modules)
      ensures UniqueIds(store.modules) ==> DirtyModules(store.modules, snapshot) == []
      ensures searchQuery == old(searchQuery) && filterType == old(filterType) && showUnmounted == old(showUnmounted)
      ensures expandedId == old(expandedId) && isSaving == old(isSaving) && visibleCount == old(visibleCount)
    {
      store.FinishLoad(fetched, ui, now);
      snapshot := SnapshotOf(store.modules);
      if UniqueIds(store.modules) {
        NoneDirtyAfterLoad(store.modules);
      }
    }

    /** `updateDefaultMode` on the store. */
    method UpdateDefaultMode(store: ModuleStore.ModuleStore, m: WebModule, mode: string)
      modifies store
      ensures store.modules == UpdateModule(old(store.modules), m.id, WithDefaultMode(mode))
      ensures store.loading == old(store.loading) && store.saving == old(store.saving)
    {
      store.SetModules(UpdateModule(store.modules, m.id, WithDefaultMode(mode)));
    }

    /** `performSave`: the dirty modules are written one at a time in store
        order; the first rejection stops the writes and shows its message;
        when every write succeeds a reload is started (not awaited) and
        success is shown. Saving is over in every outcome. */
    method PerformSave(store: ModuleStore.ModuleStore, ui: UiStore.UiStore, outcomes: seq<WriteOutcome>, now: nat)
      returns (written: seq<WebModule>, reloadStarted: bool)
      requires store != ui as object
      requires |outcomes| >= |DirtyModules(store.modules, snapshot)|
      modifies this, store, ui
      ensures ui.locale == old(ui.locale) && ui.storage == old(ui.storage) && ui.fixBottomNav == old(ui.fixBottomNav)
      ensures ui.lang == old(ui.lang) && ui.localePath == old(ui.localePath) && ui.isReady == old(ui.isReady)
      ensures var run := SaveRun(DirtyModules(old(store.modules), old(snapshot)), outcomes);
        written == run.0 && reloadStarted == run.1.None?
        && (run.1.None? ==>
              store.loading
              && ui.toast == UiStore.Shown(now, Message(old(ui.locale), "modules.saveSuccess", "Saved successfully"), Success))
        && (run.1.Some? ==>
              store.loading == old(store.loading)
              && ui.toast == UiStore.Shown(now, FailureText(run.1.value), Error))
      ensures !isSaving && snapshot == old(snapshot) && store.modules == old(store.modules)
      ensures searchQuery == old(searchQuery) && filterType == old(filterType) && showUnmounted == old(showUnmounted)
      ensures expandedId == old(expandedId) && visibleCount == old(visibleCount)
    {
      isSaving := true;
      var dirty := DirtyModules(store.modules, snapshot);
      var failure;
      written, failure := WriteInOrder(dirty, outcomes);
      if failure.None? {
        store.BeginLoad();
        var _ := ui.ShowToast(Message(ui.locale, "modules.saveSuccess", "Saved successfully"), Success, now);
      } else {
        var _ := ui.ShowToast(FailureText(failure.value), Error, now);
      }
      reloadStarted := failure.None?;
      isSaving := false;
    }

    /** `toggleExpand`: the expanded card collapses, any other expands, so
        at most one card is open. */
    method ToggleExpand(id: string)
      modifies this
      ensures expandedId == if old(expandedId) == Some(id) then None else Some(id)
      ensures searchQuery == old(searchQuery) && filterType == old(filterType) && showUnmounted == old(showUnmounted)
      ensures snapshot == old(snapshot) && isSaving == old(isSaving) && visibleCount == old(visibleCount)
    {
      if expandedId == Some(id) {
        expandedId := None;
      } else {
        expandedId := Some(id);
      }
    }

    /** The scroll sentinel came into view: one more page, without a cap. */
    method SentinelVisible()
      modifies this
      ensures visibleCount == old(visibleCount) + PAGE_SIZE
      ensures searchQuery == old(searchQuery) && filterType == old(filterType) && showUnmounted == old(showUnmounted)
      ensures expandedId == old(expandedId) && snapshot == old(snapshot) && isSaving == old(isSaving)
    {
      visibleCount := visibleCount + PAGE_SIZE;
    }

    /** Setting the search text; a changed value re-runs the effect that
        resets the page size. */
    method SetSearchQuery(q: string)
      modifies this
      ensures searchQuery == q
      ensures visibleCount == if q != old(searchQuery) then PAGE_SIZE else old(visibleCount)
      ensures filterType == old(filterType) && showUnmounted == old(showUnmounted)
      ensures expandedId == old(expandedId) && snapshot == old(snapshot) && isSaving == old(isSaving)
    {
      if q != searchQuery {
        searchQuery := q;
        visibleCount := PAGE_SIZE;
      }
    }

    /** Setting the mode filter, with the same page-size reset. */
    method SetFilterType(t: string)
      modifies this
      ensures filterType == t
      ensures visibleCount == if t != old(filterType) then PAGE_SIZE else old(visibleCount)
      ensures searchQuery == old(searchQuery) && showUnmounted == old(showUnmounted)
      ensures expandedId == old(expandedId) && snapshot == old(snapshot) && isSaving == old(isSaving)
    {
      if t != filterType {
        filterType := t;
        visibleCount := PAGE_SIZE;
      }
    }

    /** The unmounted-modules switch flips and resets the page size. */
    method ToggleShowUnmounted()
      modifies this
      ensures showUnmounted == !old(showUnmounted) && visibleCount == PAGE_SIZE
      ensures searchQuery == old(searchQuery) && filterType == old(filterType)
      ensures expandedId == old(expandedId) && snapshot == old(snapshot) && isSaving == old(isSaving)
    {
      showUnmounted := !showUnmounted;
      visibleCount := PAGE_SIZE;
    }
  }
}
