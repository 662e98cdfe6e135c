/** Concrete runs of the widget: filtering a search result against a listed
    id, three keystrokes and one timer firing, and, from empty storage,
    searching "foo", picking the result and removing it again. */
module Scenarios {
  import opened Records
  import Text
  import opened Suggestions
  import opened ListView
  import opened Widget

  /** With repository 42 listed, a search returning 42, 43 and 44 offers
      43 and 44, in that order. */
  lemma SuggestionFilterExample(i42: SearchItem, i43: SearchItem, i44: SearchItem, listed: Repo)
    requires i42.id == 42 && i43.id == 43 && i44.id == 44 && listed.id == 42
    ensures FreshItems([i42, i43, i44], [listed]) == [i43, i44]
  {
    var store := [listed];
    assert listed in store;
    assert Offer(i42, store) == [];
    assert Offer(i43, store) == [i43];
    assert Offer(i44, store) == [i44];
    assert [i42, i43, i44][1..] == [i43, i44];
    assert [i43, i44][1..] == [i44];
    assert [i44][1..] == [];
    assert FreshItems([i44], store) == [i44];
    assert FreshItems([i43, i44], store) == [i43, i44];
  }

  /** Three keystrokes, each resetting the timer, then the timer: exactly one
      search, for the text of the last keystroke. */
  lemma DebounceExample(s: State)
    ensures Run(s, [Input("f"), Input("fo"), Input("foo"), TimerFired]).issued == s.issued + ["foo"]
  {
    var texts := ["f", "fo", "foo"];
    assert InputEvents(texts) + [TimerFired] == [Input("f"), Input("fo"), Input("foo"), TimerFired];
    assert !Text.AllSpace("foo") by {
      assert !Text.IsSpace("foo"[0]);
    }
    assert Text.Trim("foo") == "foo" by {
      Text.TrimPadded([], "foo", []);
      assert [] + "foo" + [] == "foo";
    }
    assert texts[..2] + ["foo"] == texts;
    DebounceSearchesOnce(s, texts);
  }

  const fooItem := SearchItem(7, "foo-repo", Owner("alice"), 10)
  const fooRepo := Repo(7, "foo-repo", "alice", 10)

  /** After typing "foo" and the timer firing once. */
  function Searched(): State {
    Start(None).(input := "foo", issued := ["foo"])
  }

  /** After the response with the one item arrived. */
  function Suggested(): State {
    Searched().(panel := [fooItem], panelVisible := true, pushedDown := true)
  }

  /** From empty storage the placeholder is shown; typing "foo" and letting
      the timer fire issues one search, for "foo". */
  lemma SearchScenario()
    ensures Start(None).view == [NoRepos]
    ensures Step(Step(Start(None), Input("foo")), TimerFired) == Searched()
  {
    var s0 := Start(None);
    assert s0.store == [] && s0.pending == None && s0.issued == [];
    assert !Text.IsSpace("foo"[0]);
    assert Text.Trim("foo") == "foo" by {
      Text.TrimPadded([], "foo", []);
      assert [] + "foo" + [] == "foo";
    }
    assert Step(s0, Input("foo")) == s0.(input := "foo", pending := Some("foo"));
  }

  /** The response with the one item shows it as the only suggestion. */
  lemma ResponseScenario()
    ensures Step(Searched(), Response(Answered(Some([fooItem])))) == Suggested()
  {
    FreshItemsEmptyStore([fooItem]);
  }

  /** Picking the suggestion lists and stores exactly its record, renders one
      row, clears the input and hides the panel. */
  lemma PickScenario()
    ensures Step(Suggested(), PickSuggestion(0))
            == Suggested().(store := [fooRepo], storage := Some([fooRepo]),
                            view := [RepoRow("foo-repo", "alice", 10, 7)],
                            input := "", panelVisible := false, pushedDown := false)
  {
    assert !HasId([], 7);
    assert Render([fooRepo]) == [RepoRow("foo-repo", "alice", 10, 7)];
  }

  /** Removing the record added in the scenario above brings the placeholder
      back and stores an empty list. */
  lemma RemoveScenario(added: State)
    requires added.store == [fooRepo]
    ensures Run(added, [RemoveClicked(7)]).view == [NoRepos]
    ensures Run(added, [RemoveClicked(7)]).storage == Some([])
  {
    assert [RemoveClicked(7)][1..] == [];
    assert Run(added, [RemoveClicked(7)]) == RemoveRepository(added, 7);
    assert RemoveRepository(added, 7).store == [];
  }
}
