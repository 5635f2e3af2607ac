/**
 * One sale and its editor (src/sale.rs): the line items, the charges, the
 * derived totals, and `update`, which applies one show- or edit-screen
 * message to the sale and reports an `Action` to the coordinator.
 *
 * The sale is a value: the coordinator owns it exclusively and lends it
 * out as `&mut Sale`, so `Update` takes the old sale and returns the new
 * one. The process-wide item counter (`NEXT_ID`) is threaded through as
 * `nextItemId`. The tax table, the text-to-number parsers of the item
 * fields and the amounts are inputs: tax.rs is not part of this model, and
 * amounts are `real` rather than `f32`.
 */
module SaleEditor {
  import opened Wrappers
  import opened Actions

  datatype Mode = View | Edit

  /** A tax classification; `Food` is the group new items get. */
  datatype TaxGroup = Food | Other(code: string)

  /** `TaxGroup::tax_rate`, supplied by the caller. */
  type RateTable = TaxGroup -> real

  datatype SaleItem = SaleItem(
    id: nat,
    name: string,
    price: Option<real>,
    quantity: Option<nat>,
    taxGroup: TaxGroup)

  datatype Sale = Sale(
    items: seq<SaleItem>,
    serviceChargePercent: Option<real>,
    gratuityAmount: Option<real>,
    name: string)

  /** What the editor asks its parent to do. */
  datatype Instruction = Back | Save | StartEdit | Cancel

  /** Messages of the read-only screen. */
  datatype ShowMessage = Back | StartEdit

  /** One field of an item row, with the text or value just entered. */
  datatype Field =
    | Name(name: string)
    | Price(text: string)
    | Quantity(text: string)
    | TaxGroup(group: TaxGroup)

  /** Messages of the edit screen. */
  datatype EditMessage =
    | Cancel
    | Save
    | NameInput(name: string)
    | NameSubmit
    | AddItem
    | RemoveItem(id: nat)
    | UpdateItem(id: nat, field: Field)
    | SubmitItem(id: nat)
    | UpdateServiceCharge(percent: real)
    | UpdateGratuity(amount: real)

  datatype Message = Show(show: ShowMessage) | Edit(edit: EditMessage)

  /** `str::parse` for a price (`f32`) and a quantity (`u32`): `None` when the text does not parse. */
  datatype Parsers = Parsers(price: string -> Option<real>, quantity: string -> Option<nat>)

  /** What one call of `update` leaves behind: the sale, the item counter, the action. */
  datatype Outcome = Outcome(sale: Sale, nextItemId: nat, action: Action<Instruction>)

  // ---------------------------------------------------------------------
  // Defaults and accessors

  /**
   * `SaleItem::default()` when the item counter stands at `id`: the row
   * takes the counter's value as its id, starts blank in the Food group,
   * and is worth nothing until a price and a quantity are entered.
   */
  function DefaultItem(id: nat): (r: SaleItem)
    ensures r.id == id && r.name == "" && r.taxGroup == Food
    ensures r.price.None? && r.quantity.None?
    ensures LineAmount(r) == 0.0
  {
    SaleItem(id, "", None, None, Food)
  }

  /** `Sale::default()`: no rows, no charges, no name, so every total is zero. */
  function DefaultSale(): (r: Sale)
    ensures r.items == [] && r.name == ""
    ensures r.serviceChargePercent.None? && r.gratuityAmount.None?
    ensures Subtotal(r.items) == 0.0 && ServiceCharge(r) == 0.0
  {
    Sale([], None, None, "")
  }

  /** `SaleItem::price()`: an unset price reads as zero. */
  function PriceOf(item: SaleItem): (r: real)
    ensures item.price.None? ==> r == 0.0
    ensures item.price.Some? ==> r == item.price.value
  {
    item.price.GetOr(0.0)
  }

  /** `SaleItem::quantity()`: an unset quantity reads as zero. */
  function QuantityOf(item: SaleItem): (r: real)
    ensures item.quantity.None? ==> r == 0.0
    ensures item.quantity.Some? ==> r == item.quantity.value as real
  {
    item.quantity.GetOr(0) as real
  }

  function LineAmount(item: SaleItem): real
  {
    PriceOf(item) * QuantityOf(item)
  }

  // ---------------------------------------------------------------------
  // Totals

  /** No row has both a price and a quantity, so no row is worth anything. */
  predicate NoPricedRow(items: seq<SaleItem>)
  {
    items == [] || ((items[0].price.None? || items[0].quantity.None?) && NoPricedRow(items[1..]))
  }

  /**
   * `calculate_subtotal`: the sum of price times quantity over the items.
   * Rows missing a price or a quantity add nothing.
   */
  function Subtotal(items: seq<SaleItem>): (r: real)
    ensures NoPricedRow(items) ==> r == 0.0
  {
    if items == [] then 0.0 else LineAmount(items[0]) + Subtotal(items[1..])
  }

  /**
   * `calculate_tax`: each line amount times its group's rate, summed. Rows
   * missing a price or a quantity add no tax.
   */
  function Tax(items: seq<SaleItem>, rate: RateTable): (r: real)
    ensures NoPricedRow(items) ==> r == 0.0
  {
    if items == [] then 0.0
    else LineAmount(items[0]) * rate(items[0].taxGroup) + Tax(items[1..], rate)
  }

  /** `calculate_service_charge`: a percentage of the subtotal, zero when unset. */
  function ServiceCharge(sale: Sale): (r: real)
    ensures sale.serviceChargePercent.None? ==> r == 0.0
    ensures sale.serviceChargePercent.Some? ==>
      r == Subtotal(sale.items) * (sale.serviceChargePercent.value / 100.0)
  {
    match sale.serviceChargePercent
    case Some(percent) => Subtotal(sale.items) * (percent / 100.0)
    case None => 0.0
  }

  /** `calculate_total`: the four components, gratuity zero when unset. */
  function Total(sale: Sale, rate: RateTable): (r: real)
    ensures sale.gratuityAmount.None? ==>
      r == Subtotal(sale.items) + Tax(sale.items, rate) + ServiceCharge(sale)
    ensures sale.gratuityAmount.Some? ==>
      r == Subtotal(sale.items) + Tax(sale.items, rate) + ServiceCharge(sale) + sale.gratuityAmount.value
  {
    Subtotal(sale.items) + Tax(sale.items, rate) + ServiceCharge(sale)
      + sale.gratuityAmount.GetOr(0.0)
  }

  // ---------------------------------------------------------------------
  // The item-list operations `update` is built from

  /** `items.retain(|item| item.id != id)`. */
  function WithoutId(items: seq<SaleItem>, id: nat): (r: seq<SaleItem>)
    ensures forall x :: x in r <==> x in items && x.id != id
    ensures |r| <= |items|
  {
    if items == [] then []
    else (if items[0].id == id then [] else [items[0]]) + WithoutId(items[1..], id)
  }

  /** The position `items.iter().find(|i| i.id == id)` stops at. */
  function FirstIndex(items: seq<SaleItem>, id: nat): (r: Option<nat>)
    ensures r.Some? ==> r.value < |items| && items[r.value].id == id
    ensures r.Some? ==> forall j :: 0 <= j < r.value ==> items[j].id != id
    ensures r.None? <==> forall j :: 0 <= j < |items| ==> items[j].id != id
  {
    if items == [] then None
    else if items[0].id == id then Some(0)
    else
      match FirstIndex(items[1..], id)
      case None => None
      case Some(k) => Some(k + 1)
  }

  /** Empty text leaves the field unset; otherwise the parse result, unset on failure. */
  function ParseOrUnset<T>(text: string, parse: string -> Option<T>): Option<T>
  {
    if text == "" then None else parse(text)
  }

  /** The assignment `UpdateItem` makes to the item it found. */
  function SetField(item: SaleItem, field: Field, parsers: Parsers): SaleItem
  {
    match field
    case Name(n) => item.(name := n)
    case Price(text) => item.(price := ParseOrUnset(text, parsers.price))
    case Quantity(text) => item.(quantity := ParseOrUnset(text, parsers.quantity))
    case TaxGroup(g) => item.(taxGroup := g)
  }

  // ---------------------------------------------------------------------
  // update

  /** What `update` does to `sale` and the item counter, and the action it returns. */
  function Updated(sale: Sale, nextItemId: nat, message: Message, parsers: Parsers): (r: Outcome)
    ensures r.action.instruction.Some? <==>
      message.Show? || message.edit == EditMessage.Cancel || message.edit == EditMessage.Save
    ensures r.action.instruction.Some? ==> r.sale == sale && r.nextItemId == nextItemId
    ensures |r.action.task| <= 1
    ensures r.nextItemId == nextItemId || r.nextItemId == nextItemId + 1
    ensures r.nextItemId == nextItemId + 1 <==> |r.sale.items| == |sale.items| + 1
    ensures r.nextItemId == nextItemId + 1 ==>
      r.sale == sale.(items := sale.items + [DefaultItem(nextItemId)])
    ensures |r.sale.items| <= |sale.items| + 1
  {
    match message
    case Show(Back) => Outcome(sale, nextItemId, Instruct(Instruction.Back))
    case Show(StartEdit) =>
      Outcome(sale, nextItemId, WithTask(Instruct(Instruction.StartEdit), FocusNext))
    case Edit(Cancel) => Outcome(sale, nextItemId, Instruct(Instruction.Cancel))
    case Edit(Save) => Outcome(sale, nextItemId, Instruct(Instruction.Save))
    case Edit(NameInput(name)) => Outcome(sale.(name := name), nextItemId, NoAction())
    case Edit(NameSubmit) =>
      if |sale.items| == 0 then
        Outcome(sale.(items := sale.items + [DefaultItem(nextItemId)]), nextItemId + 1,
                Schedule(FocusNext))
      else
        Outcome(sale, nextItemId, Schedule(FocusNext))
    case Edit(AddItem) =>
      Outcome(sale.(items := sale.items + [DefaultItem(nextItemId)]), nextItemId + 1, NoAction())
    case Edit(RemoveItem(id)) =>
      Outcome(sale.(items := WithoutId(sale.items, id)), nextItemId, NoAction())
    case Edit(UpdateItem(id, field)) =>
      (match FirstIndex(sale.items, id)
       case None => Outcome(sale, nextItemId, NoAction())
       case Some(i) =>
         Outcome(sale.(items := sale.items[i := SetField(sale.items[i], field, parsers)]),
                 nextItemId, NoAction()))
    case Edit(SubmitItem(id)) =>
      (match FirstIndex(sale.items, id)
       case None => Outcome(sale, nextItemId, NoAction())
       case Some(i) =>
         var item := sale.items[i];
         if item.name == "" then Outcome(sale, nextItemId, Schedule(Focus("name", id)))
         else if item.quantity.None? then Outcome(sale, nextItemId, Schedule(Focus("quantity", id)))
         else if item.price.None? then Outcome(sale, nextItemId, Schedule(Focus("price", id)))
         else
           Outcome(sale.(items := sale.items + [DefaultItem(nextItemId)]), nextItemId + 1,
                   Schedule(Focus("name", id + 1))))
    case Edit(UpdateServiceCharge(percent)) =>
      Outcome(sale.(serviceChargePercent := Some(percent)), nextItemId, NoAction())
    case Edit(UpdateGratuity(amount)) =>
      Outcome(sale.(gratuityAmount := Some(amount)), nextItemId, NoAction())
  }

  /** `items.retain(|item| item.id != id)`, one item at a time. */
  method Retain(items: seq<SaleItem>, id: nat) returns (kept: seq<SaleItem>)
    ensures kept == WithoutId(items, id)
  {
    kept := [];
    var i := 0;
    while i < |items|
      invariant 0 <= i <= |items|
      invariant kept == WithoutId(items[..i], id)
    {
      var x := items[i];
      assert items[..i + 1] == items[..i] + [x];
      WithoutIdSnoc(items[..i], x, id);
      if x.id != id {
        kept := kept + [x];
      }
      i := i + 1;
    }
    assert items[..i] == items;
  }

  /**
   * The linear search behind `items.iter_mut().find(|i| i.id == id)` (for
   * UpdateItem) and `items.iter().find(|i| i.id == id)` (for SubmitItem),
   * returning the position of the row found.
   */
  method FindFirst(items: seq<SaleItem>, id: nat) returns (found: Option<nat>)
    ensures found == FirstIndex(items, id)
  {
    var i := 0;
    while i < |items|
      invariant 0 <= i <= |items|
      invariant forall j :: 0 <= j < i ==> items[j].id != id
    {
      if items[i].id == id {
        return Some(i);
      }
      i := i + 1;
    }
    return None;
  }

  /**
   * `sale::update`: applies `message` to `sale`, drawing new item ids from
   * `nextItemId`. It follows `Updated` case by case; what it adds is the two
   * loops of the source, `retain` as `Retain` and `find` as `FindFirst`.
   */
  method Update(sale: Sale, nextItemId: nat, message: Message, parsers: Parsers)
    returns (sale': Sale, nextItemId': nat, action: Action<Instruction>)
    ensures Outcome(sale', nextItemId', action) == Updated(sale, nextItemId, message, parsers)
  {
    sale', nextItemId' := sale, nextItemId;
    match message {
      case Show(Back) =>
        action := Instruct(Instruction.Back);
      case Show(StartEdit) =>
        action := WithTask(Instruct(Instruction.StartEdit), FocusNext);
      case Edit(Cancel) =>
        action := Instruct(Instruction.Cancel);
      case Edit(Save) =>
        action := Instruct(Instruction.Save);
      case Edit(NameInput(name)) =>
        sale' := sale'.(name := name);
        action := NoAction();
      case Edit(NameSubmit) =>
        if |sale'.items| == 0 {
          sale' := sale'.(items := sale'.items + [DefaultItem(nextItemId')]);
          nextItemId' := nextItemId' + 1;
        }
        action := Schedule(FocusNext);
      case Edit(AddItem) =>
        sale' := sale'.(items := sale'.items + [DefaultItem(nextItemId')]);
        nextItemId' := nextItemId' + 1;
        action := NoAction();
      case Edit(RemoveItem(id)) =>
        var kept := Retain(sale'.items, id);
        sale' := sale'.(items := kept);
        action := NoAction();
      case Edit(UpdateItem(id, field)) =>
        var found := FindFirst(sale'.items, id);
        if found.Some? {
          var i := found.value;
          sale' := sale'.(items := sale'.items[i := SetField(sale'.items[i], field, parsers)]);
        }
        action := NoAction();
      case Edit(SubmitItem(id)) =>
        var found := FindFirst(sale'.items, id);
        if found.None? {
          action := NoAction();
        } else {
          var item := sale'.items[found.value];
          if item.name == "" {
            action := Schedule(Focus("name", id));
          } else if item.quantity.None? {
            action := Schedule(Focus("quantity", id));
          } else if item.price.None? {
            action := Schedule(Focus("price", id));
          } else {
            sale' := sale'.(items := sale'.items + [DefaultItem(nextItemId')]);
            nextItemId' := nextItemId' + 1;
            action := Schedule(Focus("name", id + 1));
          }
        }
      case Edit(UpdateServiceCharge(percent)) =>
        sale' := sale'.(serviceChargePercent := Some(percent));
        action := NoAction();
      case Edit(UpdateGratuity(amount)) =>
        sale' := sale'.(gratuityAmount := Some(amount));
        action := NoAction();
    }
  }

  // ---------------------------------------------------------------------
  // Properties of the item-list operations

  /** Removing by id distributes over concatenation: the kept items stay in their order. */
  lemma {:induction false} WithoutIdConcat(a: seq<SaleItem>, b: seq<SaleItem>, id: nat)
    ensures WithoutId(a + b, id) == WithoutId(a, id) + WithoutId(b, id)
  {
    if a == [] {
      assert a + b == b;
    } else {
      assert (a + b)[1..] == a[1..] + b;
      WithoutIdConcat(a[1..], b, id);
    }
  }

  /** Removing by id from a sequence grown by one item at the back. */
  lemma WithoutIdSnoc(items: seq<SaleItem>, x: SaleItem, id: nat)
    ensures WithoutId(items + [x], id) == WithoutId(items, id) + (if x.id == id then [] else [x])
  {
    WithoutIdConcat(items, [x], id);
    assert [x][1..] == [];
  }

  /** Removing an id no item carries changes nothing. */
  lemma {:induction false} WithoutAbsentId(items: seq<SaleItem>, id: nat)
    requires forall j :: 0 <= j < |items| ==> items[j].id != id
    ensures WithoutId(items, id) == items
  {
    if items != [] {
      WithoutAbsentId(items[1..], id);
    }
  }
}
