/** The widget of src/index.js as a state machine: one immutable `State` holds
    what the module-level variables, the page elements, the debounce timer and
    local storage hold, and each handler is a pure transition. */
module Widget {
  import opened Records
  import opened Text
  import opened Store
  import opened Suggestions
  import opened ListView

  /** Everything the handlers read or write. */
  datatype State = State(
    store: seq<Repo>,            // `repositories`
    storage: Option<seq<Repo>>,  // the 'repositories' slot of local storage; None while absent
    view: seq<ListItem>,         // contents of the list container
    panel: seq<SearchItem>,      // rows of the suggestion panel
    panelVisible: bool,          // the panel is displayed
    pushedDown: bool,            // the list container is marked pushed-down
    input: string,               // value of the search input
    pending: Option<string>,     // query of the scheduled search, if a timer is pending
    issued: seq<string>          // queries searched so far, oldest first
  )

  /** What a search request comes back with: a failure (network error,
      unparseable body) or a body whose `items` may be absent. */
  datatype SearchOutcome = Failed | Answered(items: Option<seq<SearchItem>>)

  /** The events the handlers react to. `PickSuggestion(k)` is a click on row
      `k` of the panel, `RemoveClicked(id)` a click on a remove control, and
      `PageClick` any click reaching the document. */
  datatype Event =
    | Input(text: string)
    | TimerFired
    | Response(outcome: SearchOutcome)
    | PickSuggestion(index: nat)
    | RemoveClicked(id: int)
    | PageClick(insideSearchBox: bool)

  /** Persistence and memory agree: reading the slot back yields the list. */
  predicate Mirrored(s: State) {
    s.storage == Some(s.store) || (s.storage == None && s.store == [])
  }

  /** The invariant every handler keeps: ids are unique, storage mirrors the
      list, the list container shows the list, the pushed-down mark follows
      the panel, a visible panel offers only unlisted repositories, and a
      pending search carries a trimmed non-empty query. */
  predicate Inv(s: State) {
    && UniqueIds(s.store)
    && Mirrored(s)
    && s.view == Render(s.store)
    && s.pushedDown == s.panelVisible
    && (s.panelVisible ==> |s.panel| > 0 && forall x :: x in s.panel ==> !HasId(s.store, x.id))
    && (s.pending.Some? ==> Trimmed(s.pending.value))
  }

  /** `hideSuggestions` */
  function Hide(s: State): State {
    s.(panelVisible := false, pushedDown := false)
  }

  /** `saveRepositories` */
  function Save(s: State): State {
    s.(storage := Some(s.store))
  }

  /** `showRepositories` */
  function ShowRepositories(s: State): State {
    s.(view := Render(s.store))
  }

  /** `loadRepositories`: a stored snapshot replaces the list; without one the
      list is left as it was. */
  function Load(s: State): (r: State)
    ensures s.storage.None? ==> r == s
    ensures s.storage.Some? ==> Mirrored(r) && r == s.(store := s.storage.value)
  {
    match s.storage
    case None => s
    case Some(saved) => s.(store := saved)
  }

  /** The page before `initApp` runs: empty list, empty input, hidden panel,
      no timer, and whatever local storage holds. */
  function Fresh(storage: Option<seq<Repo>>): State {
    State([], storage, [], [], false, false, "", None, [])
  }

  /** `initApp`: load the snapshot, then render the list. A snapshot the
      widget wrote itself has unique ids, and from it the invariant holds. */
  function Start(storage: Option<seq<Repo>>): (r: State)
    ensures Mirrored(r) && r.storage == storage
    ensures r.view == Render(r.store)
    ensures storage.None? ==> r.view == [NoRepos]
    ensures (storage.None? || UniqueIds(storage.value)) ==> Inv(r)
  {
    ShowRepositories(Load(Fresh(storage)))
  }

  /** `addRepository`: a repository already listed changes nothing at all;
      otherwise its record is appended, saved and rendered, the input is
      cleared and the panel hidden. */
  function AddRepository(s: State, item: SearchItem): (r: State)
    ensures HasId(s.store, item.id) ==> r == s
    ensures !HasId(s.store, item.id) ==>
              && r.store == s.store + [Repo(item.id, item.name, item.owner.login, item.stargazersCount)]
              && r.storage == Some(r.store)
              && r.view == Render(r.store)
              && r.input == ""
              && !r.panelVisible && !r.pushedDown
              && r.panel == s.panel && r.pending == s.pending && r.issued == s.issued
    ensures HasId(r.store, item.id)
    ensures Inv(s) ==> Inv(r)
  {
    if HasId(s.store, item.id) then s
    else Hide(ShowRepositories(Save(s.(store := Add(s.store, item)))).(input := ""))
  }

  /** `removeRepository`: the records carrying `id` leave the list, the others
      keep their order, and the result is saved and rendered. */
  function RemoveRepository(s: State, id: int): (r: State)
    ensures r.store == Remove(s.store, id)
    ensures !HasId(r.store, id)
    ensures forall x :: x in r.store <==> x in s.store && x.id != id
    ensures IsSubsequence(r.store, s.store)
    ensures !HasId(s.store, id) ==> r.store == s.store
    ensures r.storage == Some(r.store) && r.view == Render(r.store)
    ensures r.panel == s.panel && r.panelVisible == s.panelVisible && r.pushedDown == s.pushedDown
    ensures r.input == s.input && r.pending == s.pending && r.issued == s.issued
  {
    RemoveIsSubsequence(s.store, id);
    RemoveMembers(s.store, id);
    ShowRepositories(Save(s.(store := Remove(s.store, id))))
  }

  /** `showSuggestions`: the panel is refilled with the search items not yet
      listed, and is shown, with the list pushed down, exactly when there is
      at least one. */
  function ShowSuggestions(s: State, items: seq<SearchItem>): (r: State)
    ensures r.panel == FreshItems(items, s.store)
    ensures r.panelVisible <==> |r.panel| > 0
    ensures r.pushedDown == r.panelVisible
    ensures r.(panel := s.panel, panelVisible := s.panelVisible, pushedDown := s.pushedDown) == s
  {
    var offered := FreshItems(items, s.store);
    if |offered| == 0 then Hide(s.(panel := []))
    else s.(panel := offered, panelVisible := true, pushedDown := true)
  }

  /** The items a search outcome offers: those of a present `items` list,
      and none for an absent list or a failure. */
  function Offered(outcome: SearchOutcome): seq<SearchItem> {
    match outcome
    case Answered(Some(items)) => items
    case _ => []
  }

  /** The response branch of `searchRepositories`: the panel ends up visible
      exactly when the response offers an item not yet listed, and then shows
      exactly those items. */
  function OnResponse(s: State, outcome: SearchOutcome): (r: State)
    ensures r.panelVisible <==> |FreshItems(Offered(outcome), s.store)| > 0
    ensures r.panelVisible ==> r.panel == FreshItems(Offered(outcome), s.store)
    ensures r.pushedDown == r.panelVisible
    ensures r.(panel := s.panel, panelVisible := s.panelVisible, pushedDown := s.pushedDown) == s
  {
    if outcome.Answered? && outcome.items.Some? && |outcome.items.value| > 0 then
      ShowSuggestions(s, outcome.items.value)
    else
      Hide(s)
  }

  /** The `input` handler: an all-blank value hides the panel and leaves any
      pending search in place; any other value replaces the pending search
      with one for its trimmed query. No search is issued here. */
  function OnInput(s: State, text: string): (r: State)
    ensures r.input == text
    ensures AllSpace(text) ==> !r.panelVisible && !r.pushedDown && r.pending == s.pending
    ensures !AllSpace(text) ==>
              && r.pending == Some(Trim(text)) && Trimmed(r.pending.value)
              && (exists i, j :: 0 <= i <= j <= |text| && r.pending.value == text[i..j])
              && r.panelVisible == s.panelVisible && r.pushedDown == s.pushedDown
    ensures r.store == s.store && r.storage == s.storage && r.view == s.view
    ensures r.panel == s.panel && r.issued == s.issued
  {
    var q := Trim(text);
    if q == "" then Hide(s.(input := text))
    else
      TrimIsSlice(text);
      s.(input := text, pending := Some(q))
  }

  /** The trimmed query is a piece of the text it came from. */
  lemma TrimIsSlice(text: string)
    ensures exists i, j :: 0 <= i <= j <= |text| && Trim(text) == text[i..j]
  {
    var t := TrimStart(text);
    var i := |text| - |t|;
    var r := TrimEnd(t);
    assert r == t[..|r|] && t == text[i..];
    assert Trim(text) == text[i..i + |r|];
  }

  /** The debounce timer firing: the pending query is searched, once, and the
      timer is gone. Without a pending timer nothing happens. */
  function TimerFires(s: State): (r: State)
    ensures s.pending.None? ==> r == s
    ensures s.pending.Some? ==> r.pending.None? && r.issued == s.issued + [s.pending.value]
    ensures r.(pending := s.pending, issued := s.issued) == s
  {
    match s.pending
    case None => s
    case Some(q) => s.(pending := None, issued := s.issued + [q])
  }

  /** The document click handler: a click outside the search box hides the
      panel; nothing else changes. */
  function OnPageClick(s: State, insideSearchBox: bool): (r: State)
    ensures insideSearchBox ==> r == s
    ensures !insideSearchBox ==> !r.panelVisible && !r.pushedDown
    ensures r.(panelVisible := s.panelVisible, pushedDown := s.pushedDown) == s
  {
    if insideSearchBox then s else Hide(s)
  }

  /** One event. A click on a suggestion row reaches `addRepository` with that
      row's item; where no visible row is, there is nothing to click. */
  function Step(s: State, e: Event): State {
    match e
    case Input(text) => OnInput(s, text)
    case TimerFired => TimerFires(s)
    case Response(outcome) => OnResponse(s, outcome)
    case PickSuggestion(k) =>
      if s.panelVisible && k < |s.panel| then AddRepository(s, s.panel[k]) else s
    case RemoveClicked(id) => RemoveRepository(s, id)
    case PageClick(inside) => OnPageClick(s, inside)
  }

  /** Whatever the event, the search log only grows, storage keeps mirroring
      the list, and only picking and removing touch the list or storage. */
  lemma StepFacts(s: State, e: Event)
    ensures |Step(s, e).issued| >= |s.issued| && Step(s, e).issued[..|s.issued|] == s.issued
    ensures Mirrored(s) ==> Mirrored(Step(s, e))
    ensures !e.PickSuggestion? && !e.RemoveClicked? ==>
              Step(s, e).store == s.store && Step(s, e).storage == s.storage
  {
    var r := Step(s, e);
    match e
    case TimerFired =>
      assert r.issued == s.issued || r.issued == s.issued + [s.pending.value];
    case PickSuggestion(k) =>
      assert r.issued == s.issued;
    case _ =>
      assert r.issued == s.issued;
  }

  /** A sequence of events, in order. The search log only grows, and storage
      keeps mirroring the list. */
  function Run(s: State, events: seq<Event>): (r: State)
    ensures |r.issued| >= |s.issued| && r.issued[..|s.issued|] == s.issued
    ensures Mirrored(s) ==> Mirrored(r)
    decreases |events|
  {
    if |events| == 0 then s
    else
      StepFacts(s, events[0]);
      Run(Step(s, events[0]), events[1..])
  }

  /** Every event keeps the invariant. */
  lemma StepKeepsInv(s: State, e: Event)
    requires Inv(s)
    ensures Inv(Step(s, e))
  {
    match e
    case Response(outcome) =>
      FreshItemsMembers(Offered(outcome), s.store);
    case RemoveClicked(id) =>
      RemoveKeepsUnique(s.store, id);
      RemoveMembers(s.store, id);
    case _ =>
  }

  /** Every run of events keeps the invariant. */
  lemma {:induction false} RunKeepsInv(s: State, events: seq<Event>)
    requires Inv(s)
    ensures Inv(Run(s, events))
    decreases |events|
  {
    if |events| > 0 {
      StepKeepsInv(s, events[0]);
      RunKeepsInv(Step(s, events[0]), events[1..]);
    }
  }

  /** Running two event sequences one after the other is running them joined. */
  lemma {:induction false} RunAppend(s: State, a: seq<Event>, b: seq<Event>)
    ensures Run(s, a + b) == Run(Run(s, a), b)
    decreases |a|
  {
    if |a| == 0 {
      assert a + b == b;
    } else {
      assert (a + b)[0] == a[0] && (a + b)[1..] == a[1..] + b;
      RunAppend(Step(s, a[0]), a[1..], b);
    }
  }

  /** Adding twice has the same effect on the whole widget as adding once. */
  lemma AddRepositoryIdempotent(s: State, item: SearchItem)
    ensures AddRepository(AddRepository(s, item), item) == AddRepository(s, item)
  {
  }

  /** Removing twice has the same effect on the whole widget as removing once. */
  lemma RemoveRepositoryIdempotent(s: State, id: int)
    ensures RemoveRepository(RemoveRepository(s, id), id) == RemoveRepository(s, id)
  {
  }

  /** A reload after any sequence of handled events restores the list exactly,
      in the same order. */
  lemma ReloadRestores(s: State)
    requires Inv(s)
    ensures Start(s.storage).store == s.store
    ensures Inv(Start(s.storage))
  {
  }

  /** The search a run of `input` events leaves pending: the trimmed value of
      the last non-blank one, or the earlier pending search if every value
      was blank. */
  function LatestQuery(pending: Option<string>, texts: seq<string>): Option<string>
    decreases |texts|
  {
    if |texts| == 0 then pending
    else if AllSpace(texts[|texts| - 1]) then LatestQuery(pending, texts[..|texts| - 1])
    else Some(Trim(texts[|texts| - 1]))
  }

  function InputEvents(texts: seq<string>): (es: seq<Event>)
    ensures |es| == |texts|
  {
    seq(|texts|, i requires 0 <= i < |texts| => Input(texts[i]))
  }

  /** Debouncing: after any run of keystrokes at most one search is pending,
      for the latest non-blank query, and none has been issued yet. */
  lemma {:induction false} InputsLeaveLatestQuery(s: State, texts: seq<string>)
    ensures Run(s, InputEvents(texts)).pending == LatestQuery(s.pending, texts)
    ensures Run(s, InputEvents(texts)).issued == s.issued
    ensures Run(s, InputEvents(texts)).store == s.store
    decreases |texts|
  {
    if |texts| == 0 {
      assert InputEvents(texts) == [];
    } else {
      var front := texts[..|texts| - 1];
      var last := texts[|texts| - 1];
      assert InputEvents(texts) == InputEvents(front) + [Input(last)];
      RunAppend(s, InputEvents(front), [Input(last)]);
      InputsLeaveLatestQuery(s, front);
      var mid := Run(s, InputEvents(front));
      assert Run(mid, [Input(last)]) == OnInput(mid, last) by {
        assert [Input(last)][1..] == [];
      }
    }
  }

  /** Keystrokes followed by the timer issue exactly one search, for the
      latest non-blank query, or none when no search was pending; a second
      firing issues nothing more. */
  lemma DebounceSearchesOnce(s: State, texts: seq<string>)
    ensures
      var q := LatestQuery(s.pending, texts);
      var once := if q.Some? then s.issued + [q.value] else s.issued;
      && Run(s, InputEvents(texts) + [TimerFired]).issued == once
      && Run(s, InputEvents(texts) + [TimerFired, TimerFired]).issued == once
  {
    InputsLeaveLatestQuery(s, texts);
    var mid := Run(s, InputEvents(texts));
    RunAppend(s, InputEvents(texts), [TimerFired]);
    RunAppend(s, InputEvents(texts), [TimerFired, TimerFired]);
    assert Run(mid, [TimerFired]) == TimerFires(mid) by {
      assert [TimerFired][1..] == [];
    }
    assert Run(mid, [TimerFired, TimerFired]) == TimerFires(TimerFires(mid)) by {
      assert [TimerFired, TimerFired][1..] == [TimerFired];
      assert [TimerFired][1..] == [];
    }
  }
}
