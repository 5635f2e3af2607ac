/**
 * The workflow coordinator (src/main.rs): the `App` that owns every sale,
 * routes each message to the draft or to a committed sale, interprets the
 * instructions the sale editor sends up, and moves between the list, view
 * and edit screens.
 *
 * The store is three parts: the committed sales keyed by id, exactly one
 * draft `(id, sale)`, and the sale-id counter. Its invariant: the draft id
 * is never a committed key, and the counter is above the draft id and every
 * committed key. The process-wide item counter of sale.rs lives here too,
 * as `nextItemId`; every item of every sale has an id below it, and no id
 * is carried by two items, whether in one sale or in two.
 *
 * `Transition` and `Performed` say, on values, what `App.update` and
 * `App.perform` do; the `App` class does it in place and is proved to
 * agree with them.
 */
module Workflow {
  import opened Wrappers
  import opened Actions
  import opened SaleEditor
  import opened SaleProperties

  datatype Screen = List | Sale(mode: Mode, id: nat)

  /** Messages of the list screen (list.rs is not part of this model). */
  datatype ListMessage = NewSale | SelectSale(id: nat)

  /** The keyboard modifiers held with a key. */
  datatype Modifiers = Modifiers(shift: bool, control: bool, alt: bool, logo: bool)

  datatype Hotkey = Escape | Tab(modifiers: Modifiers)

  datatype Message =
    | List(list: ListMessage)
    | Sale(id: nat, message: SaleEditor.Message)
    | Hotkey(hotkey: Hotkey)

  /** An instruction of the sale editor, tagged with the sale it came from. */
  datatype Operation = Sale(id: nat, instruction: Instruction)

  /** `sale::handle_hotkey` (built on show.rs and edit.rs, not part of this model), supplied by the caller. */
  type HotkeyMap = (Mode, Hotkey) -> Action<Instruction>

  /** The coordinator's fields as a value. */
  datatype State = State(
    screen: Screen,
    sales: map<nat, SaleEditor.Sale>,
    pendingSale: (nat, SaleEditor.Sale),
    nextSaleId: nat,
    nextItemId: nat)

  // ---------------------------------------------------------------------
  // Invariants

  /** The draft id is not committed, and the counter is above it and above every committed key. */
  ghost predicate StoreInvariant(s: State)
  {
    && s.pendingSale.0 !in s.sales
    && s.pendingSale.0 < s.nextSaleId
    && (forall k :: k in s.sales ==> k < s.nextSaleId)
  }

  /** In every sale, item ids are distinct and below the item counter. */
  ghost predicate ItemIdsFresh(s: State)
  {
    && IdsFresh(s.pendingSale.1.items, s.nextItemId)
    && (forall k :: k in s.sales ==> IdsFresh(s.sales[k].items, s.nextItemId))
  }

  /**
   * Item ids are unique across sales: the draft shares no id with a
   * committed sale, and no two committed sales share one.
   */
  ghost predicate ItemIdsUnique(s: State)
  {
    && (forall k :: k in s.sales ==> Ids(s.pendingSale.1.items) !! Ids(s.sales[k].items))
    && (forall k, k' :: k in s.sales && k' in s.sales && k != k' ==>
          Ids(s.sales[k].items) !! Ids(s.sales[k'].items))
  }

  ghost predicate Invariant(s: State)
  {
    StoreInvariant(s) && ItemIdsFresh(s) && ItemIdsUnique(s)
  }

  /** `id` names the draft or a committed sale. */
  predicate Resolves(s: State, id: nat)
  {
    id == s.pendingSale.0 || id in s.sales
  }

  /** The screen shows nothing, the draft, or a committed sale. */
  ghost predicate ScreenResolves(s: State)
  {
    s.screen.Sale? ==> Resolves(s, s.screen.id)
  }

  /**
   * What `update` demands before it runs: the sale a per-sale message, or
   * a hotkey on a sale screen, refers to exists (otherwise the source's
   * `expect("Sale should exist")` panics).
   */
  predicate CanHandle(s: State, message: Message)
  {
    match message
    case List(_) => true
    case Sale(id, _) => Resolves(s, id)
    case Hotkey(_) => s.screen.Sale? ==> Resolves(s, s.screen.id)
  }

  // ---------------------------------------------------------------------
  // The store on values

  /**
   * `App::new`: the list screen, no committed sales, a blank draft 0, the
   * counter at 1. The invariant holds, and the draft is the only sale.
   */
  function Initial(): (r: State)
    ensures Invariant(r) && ScreenResolves(r)
    ensures forall id :: Resolves(r, id) <==> id == 0
  {
    var initialId := 0;
    State(Screen.List, map[], (initialId, DefaultSale()), initialId + 1, 0)
  }

  /** The draft when `id` is the draft's id, the committed sale otherwise. */
  function Lookup(s: State, id: nat): SaleEditor.Sale
    requires Resolves(s, id)
  {
    if id == s.pendingSale.0 then s.pendingSale.1 else s.sales[id]
  }

  /** Writes `sale` back where `Lookup` found it. */
  function Store(s: State, id: nat, sale: SaleEditor.Sale): State
  {
    if id == s.pendingSale.0 then s.(pendingSale := (id, sale))
    else s.(sales := s.sales[id := sale])
  }

  /**
   * `App::perform`: interprets one instruction. Only Save of the draft
   * touches the store; every instruction but Back shows the sale that sent
   * it; the item counter is never touched.
   */
  function Performed(s: State, op: Operation): (r: State)
    ensures r.nextItemId == s.nextItemId
    ensures (r.sales == s.sales && r.pendingSale == s.pendingSale && r.nextSaleId == s.nextSaleId) <==>
      !(op.instruction == Instruction.Save && op.id == s.pendingSale.0)
    ensures op.instruction != Instruction.Back ==> r.screen.Sale? && r.screen.id == op.id
  {
    match op.instruction
    case Back =>
      (match s.screen
       case List => s
       case Sale(mode, id) =>
         if mode == Mode.Edit then s.(screen := Screen.Sale(Mode.View, id))
         else s.(screen := Screen.List))
    case Save =>
      if op.id == s.pendingSale.0 then
        s.(sales := s.sales[op.id := s.pendingSale.1],
           pendingSale := (s.nextSaleId, DefaultSale()),
           nextSaleId := s.nextSaleId + 1,
           screen := Screen.Sale(Mode.View, op.id))
      else
        s.(screen := Screen.Sale(Mode.View, op.id))
    case StartEdit => s.(screen := Screen.Sale(Mode.Edit, op.id))
    case Cancel => s.(screen := Screen.Sale(Mode.View, op.id))
  }

  /** Performs the instruction of an action, if it carries one. */
  function AfterInstruction(s: State, id: nat, instruction: Option<Instruction>): State
  {
    match instruction
    case None => s
    case Some(i) => Performed(s, Operation.Sale(id, i))
  }

  /**
   * `App::update`: the new state and the returned task. `perform` returns
   * no task, so the chain "perform's task, then the child's task" is the
   * child's task. The sale counter moves by at most one, and exactly when
   * the draft is committed; otherwise no sale id comes or goes.
   */
  function Transition(s: State, message: Message, parsers: Parsers, hotkeys: HotkeyMap): (r: (State, Task))
    requires CanHandle(s, message)
    ensures r.0.nextSaleId == s.nextSaleId || r.0.nextSaleId == s.nextSaleId + 1
    ensures r.0.nextSaleId == s.nextSaleId + 1 ==>
      r.0.sales.Keys == s.sales.Keys + {s.pendingSale.0} && r.0.pendingSale == (s.nextSaleId, DefaultSale())
    ensures r.0.nextSaleId == s.nextSaleId ==>
      r.0.sales.Keys == s.sales.Keys && r.0.pendingSale.0 == s.pendingSale.0
  {
    match message
    case List(NewSale) => (s.(screen := Screen.Sale(Mode.Edit, s.pendingSale.0)), [])
    case List(SelectSale(id)) => (s.(screen := Screen.Sale(Mode.View, id)), [])
    case Hotkey(hotkey) =>
      (match s.screen
       case List => (s, [])
       case Sale(mode, id) =>
         var action := hotkeys(mode, hotkey);
         (AfterInstruction(s, id, action.instruction), action.task))
    case Sale(id, m) =>
      var o := SaleEditor.Updated(Lookup(s, id), s.nextItemId, m, parsers);
      var edited := Store(s, id, o.sale).(nextItemId := o.nextItemId);
      (AfterInstruction(edited, id, o.action.instruction), o.action.task)
  }

  // ---------------------------------------------------------------------
  // The invariants hold from the start and are kept

  /** Every instruction keeps the store invariant and fresh, unique item ids. */
  lemma PerformedKeepsInvariant(s: State, op: Operation)
    requires Invariant(s)
    ensures Invariant(Performed(s, op))
  {
    if op.instruction == Instruction.Save && op.id == s.pendingSale.0 {
      var s' := Performed(s, op);
      var draft := s.pendingSale.1;
      forall k | k in s'.sales
        ensures IdsFresh(s'.sales[k].items, s'.nextItemId)
      {
        if k != op.id {
          assert s'.sales[k] == s.sales[k];
        }
      }
      assert Ids(s'.pendingSale.1.items) == {};
      forall k, k' | k in s'.sales && k' in s'.sales && k != k'
        ensures Ids(s'.sales[k].items) !! Ids(s'.sales[k'].items)
      {
        if k == op.id {
          assert s'.sales[k] == draft && s'.sales[k'] == s.sales[k'];
        } else if k' == op.id {
          assert s'.sales[k'] == draft && s'.sales[k] == s.sales[k];
        } else {
          assert s'.sales[k] == s.sales[k] && s'.sales[k'] == s.sales[k'];
        }
      }
    }
  }

  /** Editing one sale, and advancing the item counter with it, keeps the invariant. */
  lemma StoreKeepsInvariant(s: State, id: nat, m: SaleEditor.Message, parsers: Parsers)
    requires Invariant(s) && Resolves(s, id)
    ensures var o := SaleEditor.Updated(Lookup(s, id), s.nextItemId, m, parsers);
      Invariant(Store(s, id, o.sale).(nextItemId := o.nextItemId))
  {
    var o := SaleEditor.Updated(Lookup(s, id), s.nextItemId, m, parsers);
    var s' := Store(s, id, o.sale).(nextItemId := o.nextItemId);
    UpdateKeepsIdsFresh(Lookup(s, id), s.nextItemId, m, parsers);
    IdsFreshMonotonic(s.pendingSale.1.items, s.nextItemId, o.nextItemId);
    forall k | k in s'.sales
      ensures IdsFresh(s'.sales[k].items, s'.nextItemId)
    {
      if k != id {
        assert s'.sales[k] == s.sales[k];
        IdsFreshMonotonic(s.sales[k].items, s.nextItemId, o.nextItemId);
      }
    }
    EditKeepsIdsUnique(s, id, o.sale, m, parsers);
  }

  /**
   * The edited sale's new ids are its old ones or the counter's value; the
   * old ones belong to no other sale and the counter's value to none at
   * all, so the sales stay disjoint.
   */
  lemma EditKeepsIdsUnique(s: State, id: nat, sale': SaleEditor.Sale, m: SaleEditor.Message, parsers: Parsers)
    requires Invariant(s) && Resolves(s, id)
    requires sale' == SaleEditor.Updated(Lookup(s, id), s.nextItemId, m, parsers).sale
    ensures ItemIdsUnique(Store(s, id, sale'))
  {
    var n := s.nextItemId;
    var s' := Store(s, id, sale');
    var edited := Ids(sale'.items);
    UpdateDrawsIdsFromCounter(Lookup(s, id), n, m, parsers);
    assert edited <= Ids(Lookup(s, id).items) + {n};
    FreshIdsBelow(s.pendingSale.1.items, n);
    if id == s.pendingSale.0 {
      forall k | k in s'.sales
        ensures Ids(s'.pendingSale.1.items) !! Ids(s'.sales[k].items)
      {
        FreshIdsBelow(s.sales[k].items, n);
      }
    } else {
      forall k | k in s'.sales
        ensures Ids(s'.pendingSale.1.items) !! Ids(s'.sales[k].items)
      {
        if k == id {
          assert s'.sales[k] == sale';
        } else {
          assert s'.sales[k] == s.sales[k];
        }
      }
      forall k, k' | k in s'.sales && k' in s'.sales && k != k'
        ensures Ids(s'.sales[k].items) !! Ids(s'.sales[k'].items)
      {
        if k == id {
          assert s'.sales[k'] == s.sales[k'];
          FreshIdsBelow(s.sales[k'].items, n);
        } else if k' == id {
          assert s'.sales[k] == s.sales[k];
          FreshIdsBelow(s.sales[k].items, n);
        } else {
          assert s'.sales[k] == s.sales[k] && s'.sales[k'] == s.sales[k'];
        }
      }
    }
  }

  /** Every message keeps the store invariant and fresh item ids. */
  lemma TransitionKeepsInvariant(s: State, message: Message, parsers: Parsers, hotkeys: HotkeyMap)
    requires Invariant(s) && CanHandle(s, message)
    ensures Invariant(Transition(s, message, parsers, hotkeys).0)
  {
    match message {
      case List(_) =>
      case Hotkey(hotkey) =>
        if s.screen.Sale? {
          var action := hotkeys(s.screen.mode, hotkey);
          if action.instruction.Some? {
            PerformedKeepsInvariant(s, Operation.Sale(s.screen.id, action.instruction.value));
          }
        }
      case Sale(id, m) =>
        var o := SaleEditor.Updated(Lookup(s, id), s.nextItemId, m, parsers);
        var edited := Store(s, id, o.sale).(nextItemId := o.nextItemId);
        StoreKeepsInvariant(s, id, m, parsers);
        if o.action.instruction.Some? {
          PerformedKeepsInvariant(edited, Operation.Sale(id, o.action.instruction.value));
        }
    }
  }

  /**
   * The screen keeps pointing at an existing sale, provided the list only
   * offers existing sales to select.
   */
  lemma TransitionKeepsScreenResolvable(s: State, message: Message, parsers: Parsers, hotkeys: HotkeyMap)
    requires Invariant(s) && ScreenResolves(s) && CanHandle(s, message)
    requires message.List? && message.list.SelectSale? ==> Resolves(s, message.list.id)
    ensures ScreenResolves(Transition(s, message, parsers, hotkeys).0)
  {
  }

  // ---------------------------------------------------------------------
  // Keyboard events

  /** The keys the filter tells apart. */
  datatype NamedKey = Escape | Tab | OtherNamed(code: string)

  datatype Key = Named(named: NamedKey) | Character(text: string) | Unidentified

  datatype KeyboardEvent =
    | KeyPressed(key: Key, modifiers: Modifiers)
    | KeyReleased(key: Key, modifiers: Modifiers)
    | ModifiersChanged(modifiers: Modifiers)

  /** A runtime event: a keyboard event, or any other kind (mouse, window, touch). */
  datatype Event = Keyboard(keyboard: KeyboardEvent) | NonKeyboard

  /**
   * `handle_event`: only a pressed Escape or Tab becomes a message, a hotkey;
   * Tab carries the modifiers held with it. Everything else is dropped.
   */
  function HandleEvent(event: Event): (r: Option<Message>)
    ensures r.Some? <==>
      event.Keyboard? && event.keyboard.KeyPressed? &&
      event.keyboard.key in {Named(NamedKey.Escape), Named(NamedKey.Tab)}
    ensures r.Some? ==> r.value.Hotkey?
    ensures r == Some(Message.Hotkey(Hotkey.Escape)) <==>
      event.Keyboard? && event.keyboard.KeyPressed? && event.keyboard.key == Named(NamedKey.Escape)
    ensures r.Some? && r.value.hotkey.Tab? ==>
      event == Keyboard(KeyPressed(Named(NamedKey.Tab), r.value.hotkey.modifiers))
  {
    match event
    case Keyboard(KeyPressed(key, modifiers)) =>
      (match key
       case Named(Escape) => Some(Message.Hotkey(Hotkey.Escape))
       case Named(Tab) => Some(Message.Hotkey(Hotkey.Tab(modifiers)))
       case _ => None)
    case _ => None
  }

  // ---------------------------------------------------------------------
  // The coordinator

  class App {
    var screen: Screen
    var sales: map<nat, SaleEditor.Sale>
    var pendingSale: (nat, SaleEditor.Sale)
    var nextSaleId: nat
    /** The item counter `SaleItem::default` draws from (a process-wide static in the source). */
    var nextItemId: nat

    function Model(): State
      reads this
    {
      State(screen, sales, pendingSale, nextSaleId, nextItemId)
    }

    ghost predicate Valid()
      reads this
    {
      Invariant(Model())
    }

    /** `App::new`. */
    constructor ()
      ensures Model() == Initial()
      ensures Valid() && ScreenResolves(Model())
    {
      var initialId := 0;
      screen := Screen.List;
      sales := map[];
      pendingSale := (initialId, DefaultSale());
      nextSaleId := initialId + 1;
      nextItemId := 0;
    }

    /** `App::perform`: changes the screen and, on Save of the draft, commits it. Returns no task. */
    method Perform(op: Operation) returns (task: Task)
      requires Valid()
      modifies this
      ensures Model() == Performed(old(Model()), op)
      ensures Valid()
      ensures task == []
    {
      PerformedKeepsInvariant(Model(), op);
      var saleId := op.id;
      match op.instruction {
        case Back =>
          match screen {
            case List =>
            case Sale(mode, id) =>
              match mode {
                case Edit => screen := Screen.Sale(Mode.View, id);
                case View => screen := Screen.List;
              }
          }
        case Save =>
          if saleId == pendingSale.0 {
            // take the draft, leaving a blank sale in its place
            var currentSale := pendingSale.1;
            pendingSale := (pendingSale.0, DefaultSale());
            // give the draft slot the next id from the counter
            var currentId := pendingSale.0;
            pendingSale := (nextSaleId, pendingSale.1);
            nextSaleId := nextSaleId + 1;
            sales := sales[currentId := currentSale];
            screen := Screen.Sale(Mode.View, currentId);
          } else {
            screen := Screen.Sale(Mode.View, saleId);
          }
        case StartEdit =>
          screen := Screen.Sale(Mode.Edit, saleId);
        case Cancel =>
          screen := Screen.Sale(Mode.View, saleId);
      }
      task := [];
    }

    /**
     * `App::update`: routes the message, lets the sale editor (or the
     * hotkey map) produce an action, performs its instruction, and returns
     * perform's task followed by the action's own task.
     */
    method Update(message: Message, parsers: Parsers, hotkeys: HotkeyMap) returns (task: Task)
      requires Valid() && CanHandle(Model(), message)
      modifies this
      ensures (Model(), task) == Transition(old(Model()), message, parsers, hotkeys)
      ensures Valid()
    {
      match message {
        case List(NewSale) =>
          screen := Screen.Sale(Mode.Edit, pendingSale.0);
          task := [];
        case List(SelectSale(id)) =>
          screen := Screen.Sale(Mode.View, id);
          task := [];
        case Hotkey(hotkey) =>
          match screen {
            case List =>
              task := [];
            case Sale(mode, saleId) =>
              // the sale is looked up (and must exist) but the hotkey map does not read it
              var action := hotkeys(mode, hotkey);
              var operationTask := [];
              if action.instruction.Some? {
                operationTask := Perform(Operation.Sale(saleId, action.instruction.value));
              }
              task := operationTask + action.task;
              assert task == action.task;
              assert Model() == AfterInstruction(old(Model()), saleId, action.instruction);
          }
        case Sale(saleId, msg) =>
          ghost var s := Model();
          var sale := if saleId == pendingSale.0 then pendingSale.1 else sales[saleId];
          var sale', nextItemId', action := SaleEditor.Update(sale, nextItemId, msg, parsers);
          if saleId == pendingSale.0 {
            pendingSale := (pendingSale.0, sale');
          } else {
            sales := sales[saleId := sale'];
          }
          nextItemId := nextItemId';
          assert Model() == Store(s, saleId, sale').(nextItemId := nextItemId');
          StoreKeepsInvariant(s, saleId, msg, parsers);
          var operationTask := [];
          if action.instruction.Some? {
            operationTask := Perform(Operation.Sale(saleId, action.instruction.value));
          }
          task := operationTask + action.task;
          assert task == action.task;
          assert Model() == AfterInstruction(Store(s, saleId, sale').(nextItemId := nextItemId'), saleId, action.instruction);
      }
    }
  }
}
