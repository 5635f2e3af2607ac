/**
 * What the coordinator of src/main.rs promises, stated over the
 * specification functions `Workflow.Transition` and `Workflow.Performed`
 * that `App.Update` and `App.Perform` are proved equal to.
 */
module WorkflowProperties {
  import opened Wrappers
  import opened Actions
  import opened SaleEditor
  import opened SaleProperties
  import opened Workflow

  /** The per-sale message carrying edit-screen message `m` for sale `id`. */
  function EditFor(id: nat, m: EditMessage): Workflow.Message
  {
    Workflow.Message.Sale(id, SaleEditor.Message.Edit(m))
  }

  /** The per-sale message carrying show-screen message `m` for sale `id`. */
  function ShowFor(id: nat, m: ShowMessage): Workflow.Message
  {
    Workflow.Message.Sale(id, SaleEditor.Message.Show(m))
  }

  /** Writing back the sale just looked up changes nothing. */
  lemma StoreLookup(s: State, id: nat)
    requires Resolves(s, id)
    ensures Store(s, id, Lookup(s, id)) == s
  {
    if id != s.pendingSale.0 {
      assert s.sales[id := s.sales[id]] == s.sales;
    }
  }

  // ---------------------------------------------------------------------
  // Start and commit

  /** The coordinator starts on the list with no committed sale, a blank draft 0 and the counter at 1. */
  lemma InitialState()
    ensures Initial().screen == Screen.List
    ensures Initial().sales == map[]
    ensures Initial().pendingSale == (0, DefaultSale())
    ensures Initial().nextSaleId == 1
    ensures Invariant(Initial())
  {
  }

  /**
   * Save on the draft commits it: the draft sale goes into the map under
   * the old draft id, a blank draft takes the counter's value, the counter
   * goes up by one and the screen shows the committed sale. No task.
   */
  lemma SaveCommitsDraft(s: State, parsers: Parsers, hotkeys: HotkeyMap)
    requires Invariant(s)
    ensures var id := s.pendingSale.0;
      var (s', task) := Transition(s, EditFor(id, EditMessage.Save), parsers, hotkeys);
      && s'.sales == s.sales[id := s.pendingSale.1]
      && s'.sales.Keys == s.sales.Keys + {id}
      && id !in s.sales
      && s'.pendingSale == (s.nextSaleId, DefaultSale())
      && s'.nextSaleId == s.nextSaleId + 1
      && s'.nextItemId == s.nextItemId
      && s'.screen == Screen.Sale(Mode.View, id)
      && s'.pendingSale.0 !in s'.sales
      && task == []
      && Invariant(s')
  {
    var id := s.pendingSale.0;
    PerformedKeepsInvariant(s, Operation.Sale(id, Instruction.Save));
  }

  /** Save on a committed sale only shows it; the store is untouched. */
  lemma SaveCommittedOnlyShows(s: State, id: nat, parsers: Parsers, hotkeys: HotkeyMap)
    requires Invariant(s) && id in s.sales
    ensures Transition(s, EditFor(id, EditMessage.Save), parsers, hotkeys) ==
      (s.(screen := Screen.Sale(Mode.View, id)), [])
  {
    StoreLookup(s, id);
  }

  /** Saving the draft `k` times from the start, by the Save message each time. */
  function SaveDraftTimes(k: nat, parsers: Parsers, hotkeys: HotkeyMap): State
  {
    if k == 0 then Initial()
    else
      var s := SaveDraftTimes(k - 1, parsers, hotkeys);
      Transition(s, EditFor(s.pendingSale.0, EditMessage.Save), parsers, hotkeys).0
  }

  /**
   * Sales 0 to k-1 are committed and no other, the draft is blank with id
   * k, the counter is at k+1, and the invariant holds.
   */
  ghost predicate CommittedBelow(s: State, k: nat)
  {
    && (forall i: nat :: i in s.sales <==> i < k)
    && s.pendingSale == (k, DefaultSale())
    && s.nextSaleId == k + 1
    && Invariant(s)
  }

  /**
   * After `k` saves of the draft from the start, the committed ids are
   * exactly 0 to k-1, the draft is blank with id k, and the counter is
   * k+1: each save gets a new id and none is reused.
   */
  lemma {:induction false} SavesCommitConsecutiveIds(k: nat, parsers: Parsers, hotkeys: HotkeyMap)
    ensures CommittedBelow(SaveDraftTimes(k, parsers, hotkeys), k)
  {
    if k > 0 {
      var s := SaveDraftTimes(k - 1, parsers, hotkeys);
      SavesCommitConsecutiveIds(k - 1, parsers, hotkeys);
      SaveDraftTimesStep(k - 1, parsers, hotkeys);
      CommitNextDraft(s, k - 1, parsers, hotkeys);
    }
  }

  /** The `k+1`-th save is the Save message sent to the draft left by the first `k`. */
  lemma SaveDraftTimesStep(k: nat, parsers: Parsers, hotkeys: HotkeyMap)
    ensures var s := SaveDraftTimes(k, parsers, hotkeys);
      SaveDraftTimes(k + 1, parsers, hotkeys) ==
        Transition(s, EditFor(s.pendingSale.0, EditMessage.Save), parsers, hotkeys).0
  {
  }

  /** One more save from `CommittedBelow(s, k)` commits k and drafts k+1. */
  lemma CommitNextDraft(s: State, k: nat, parsers: Parsers, hotkeys: HotkeyMap)
    requires CommittedBelow(s, k)
    ensures CommittedBelow(Transition(s, EditFor(s.pendingSale.0, EditMessage.Save), parsers, hotkeys).0, k + 1)
  {
    SaveCommitsDraft(s, parsers, hotkeys);
  }

  /**
   * No message removes a committed sale or moves a counter back, and the
   * draft id either stays the draft's or has become a committed key; a new
   * draft id is the old counter value, so it was never used before.
   */
  lemma TransitionNeverReusesIds(s: State, message: Workflow.Message, parsers: Parsers, hotkeys: HotkeyMap)
    requires Invariant(s) && CanHandle(s, message)
    ensures var s' := Transition(s, message, parsers, hotkeys).0;
      && s.sales.Keys <= s'.sales.Keys
      && s.nextSaleId <= s'.nextSaleId
      && s.nextItemId <= s'.nextItemId
      && (s'.pendingSale.0 == s.pendingSale.0 || s.pendingSale.0 in s'.sales)
      && (s'.pendingSale.0 != s.pendingSale.0 ==> s'.pendingSale.0 == s.nextSaleId)
  {
    if message.Sale? {
      UpdateKeepsIdsFresh(Lookup(s, message.id), s.nextItemId, message.message, parsers);
    }
  }

  /**
   * Rows of two different sales (the draft or committed ones) never carry
   * the same item id, as item ids come from one process-wide counter.
   */
  lemma RowIdsDifferAcrossSales(s: State, a: nat, b: nat, i: nat, j: nat)
    requires Invariant(s) && Resolves(s, a) && Resolves(s, b) && a != b
    requires i < |Lookup(s, a).items| && j < |Lookup(s, b).items|
    ensures Lookup(s, a).items[i].id != Lookup(s, b).items[j].id
  {
    var x, y := Lookup(s, a).items, Lookup(s, b).items;
    assert x[i].id in Ids(x) && y[j].id in Ids(y);
    if a == s.pendingSale.0 {
      assert Ids(x) !! Ids(s.sales[b].items);
    } else if b == s.pendingSale.0 {
      assert Ids(y) !! Ids(s.sales[a].items);
    } else {
      assert Ids(s.sales[a].items) !! Ids(s.sales[b].items);
    }
  }

  // ---------------------------------------------------------------------
  // Screens

  /**
   * Back goes up one level from the current screen, whichever sale sent
   * it: edit to view of the same sale, view to the list, the list stays.
   */
  lemma BackAscends(s: State, id: nat)
    ensures s.screen == Screen.List ==> Performed(s, Operation.Sale(id, Instruction.Back)) == s
    ensures s.screen.Sale? && s.screen.mode == Mode.Edit ==>
      Performed(s, Operation.Sale(id, Instruction.Back)) == s.(screen := Screen.Sale(Mode.View, s.screen.id))
    ensures s.screen.Sale? && s.screen.mode == Mode.View ==>
      Performed(s, Operation.Sale(id, Instruction.Back)) == s.(screen := Screen.List)
  {
  }

  /** NewSale opens the draft for editing and SelectSale views a sale; nothing else changes. */
  lemma ListTransitions(s: State, id: nat, parsers: Parsers, hotkeys: HotkeyMap)
    ensures Transition(s, Workflow.Message.List(NewSale), parsers, hotkeys) ==
      (s.(screen := Screen.Sale(Mode.Edit, s.pendingSale.0)), [])
    ensures Transition(s, Workflow.Message.List(SelectSale(id)), parsers, hotkeys) ==
      (s.(screen := Screen.Sale(Mode.View, id)), [])
  {
  }

  /**
   * StartEdit edits the sale that sent it and asks for a focus move; Cancel
   * views it again, rolling no edit back. No sale, counter or id changes.
   */
  lemma StartEditAndCancelOnlyMoveScreen(s: State, id: nat, parsers: Parsers, hotkeys: HotkeyMap)
    requires Resolves(s, id)
    ensures Transition(s, ShowFor(id, ShowMessage.StartEdit), parsers, hotkeys) ==
      (s.(screen := Screen.Sale(Mode.Edit, id)), [FocusNext])
    ensures Transition(s, EditFor(id, EditMessage.Cancel), parsers, hotkeys) ==
      (s.(screen := Screen.Sale(Mode.View, id)), [])
  {
    StoreLookup(s, id);
  }

  /**
   * If the hotkey map sends Escape to Back on the view screen and to
   * Cancel on the edit screen, Escape always goes up one level.
   */
  lemma EscapeAscends(s: State, parsers: Parsers, hotkeys: HotkeyMap)
    requires Invariant(s) && ScreenResolves(s)
    requires hotkeys(Mode.View, Hotkey.Escape).instruction == Some(Instruction.Back)
    requires hotkeys(Mode.Edit, Hotkey.Escape).instruction == Some(Instruction.Cancel)
    ensures var s' := Transition(s, Workflow.Message.Hotkey(Hotkey.Escape), parsers, hotkeys).0;
      && (s.screen == Screen.List ==> s' == s)
      && (s.screen.Sale? && s.screen.mode == Mode.Edit ==>
            s' == s.(screen := Screen.Sale(Mode.View, s.screen.id)))
      && (s.screen.Sale? && s.screen.mode == Mode.View ==> s' == s.(screen := Screen.List))
  {
  }

  // ---------------------------------------------------------------------
  // Routing

  /**
   * A per-sale message other than Save edits only the sale it names: the
   * draft when the id is the draft's, that committed entry otherwise; every
   * other sale, the draft id and the sale counter stay as they were. The
   * returned task is the editor's own.
   */
  lemma SaleMessageEditsOnlyItsSale(s: State, id: nat, m: SaleEditor.Message, parsers: Parsers, hotkeys: HotkeyMap)
    requires Invariant(s) && Resolves(s, id)
    requires m != SaleEditor.Message.Edit(EditMessage.Save)
    ensures var (s', task) := Transition(s, Workflow.Message.Sale(id, m), parsers, hotkeys);
      var o := SaleEditor.Updated(Lookup(s, id), s.nextItemId, m, parsers);
      && s'.nextSaleId == s.nextSaleId
      && s'.nextItemId == o.nextItemId
      && task == o.action.task
      && (id == s.pendingSale.0 ==> s'.sales == s.sales && s'.pendingSale == (id, o.sale))
      && (id != s.pendingSale.0 ==> s'.pendingSale == s.pendingSale && s'.sales == s.sales[id := o.sale])
  {
  }

  /**
   * Hotkeys are ignored on the list. On a sale screen the returned task is the one
   * the hotkey map returns, and unless its instruction is Save no sale and
   * no counter changes.
   */
  lemma HotkeysOnlyInstruct(s: State, hotkey: Hotkey, parsers: Parsers, hotkeys: HotkeyMap)
    requires Invariant(s) && ScreenResolves(s)
    ensures s.screen == Screen.List ==>
      Transition(s, Workflow.Message.Hotkey(hotkey), parsers, hotkeys) == (s, [])
    ensures s.screen.Sale? ==>
      var action := hotkeys(s.screen.mode, hotkey);
      var (s', task) := Transition(s, Workflow.Message.Hotkey(hotkey), parsers, hotkeys);
      && task == action.task
      && (action.instruction != Some(Instruction.Save) ==>
            s' == s.(screen := s'.screen))
  {
  }
}
