/**
 * What `update` and the totals of src/sale.rs promise, stated over the
 * specification function `SaleEditor.Updated` that the `Update` method
 * is proved equal to.
 */
module SaleProperties {
  import opened Wrappers
  import opened Actions
  import opened SaleEditor

  /** Every item id is below the item counter, and no two items share an id. */
  ghost predicate IdsFresh(items: seq<SaleItem>, nextItemId: nat)
  {
    && (forall i :: 0 <= i < |items| ==> items[i].id < nextItemId)
    && (forall i, j :: 0 <= i < j < |items| ==> items[i].id != items[j].id)
  }

  // ---------------------------------------------------------------------
  // The control messages

  /** Back, StartEdit, Cancel and Save only pass their instruction up; only StartEdit adds a focus move. */
  lemma ControlMessagesOnlyInstruct(sale: Sale, n: nat, parsers: Parsers, m: Message)
    requires m in {Show(ShowMessage.Back), Show(ShowMessage.StartEdit),
                   Message.Edit(EditMessage.Cancel), Message.Edit(EditMessage.Save)}
    ensures Updated(sale, n, m, parsers).sale == sale
    ensures Updated(sale, n, m, parsers).nextItemId == n
    ensures m == Show(ShowMessage.Back) ==>
      Updated(sale, n, m, parsers).action == Action(Some(Instruction.Back), [])
    ensures m == Show(ShowMessage.StartEdit) ==>
      Updated(sale, n, m, parsers).action == Action(Some(Instruction.StartEdit), [FocusNext])
    ensures m == Message.Edit(EditMessage.Cancel) ==>
      Updated(sale, n, m, parsers).action == Action(Some(Instruction.Cancel), [])
    ensures m == Message.Edit(EditMessage.Save) ==>
      Updated(sale, n, m, parsers).action == Action(Some(Instruction.Save), [])
  {
  }

  // ---------------------------------------------------------------------
  // The item list

  /** Submitting the sale name adds one blank row exactly when there is none, and always moves focus on. */
  lemma NameSubmitAddsFirstRow(sale: Sale, n: nat, parsers: Parsers)
    ensures var o := Updated(sale, n, Message.Edit(NameSubmit), parsers);
      && o.action == Action(None, [FocusNext])
      && (o.sale != sale <==> sale.items == [])
      && (sale.items == [] ==> o.sale == sale.(items := [DefaultItem(n)]) && o.nextItemId == n + 1)
      && (sale.items != [] ==> o.nextItemId == n)
  {
  }

  /** AddItem appends one blank row with the counter's id, after the unchanged existing rows. */
  lemma AddItemAppendsBlankRow(sale: Sale, n: nat, parsers: Parsers)
    ensures var o := Updated(sale, n, Message.Edit(AddItem), parsers);
      && |o.sale.items| == |sale.items| + 1
      && o.sale.items[..|sale.items|] == sale.items
      && o.sale.items[|sale.items|] == SaleItem(n, "", None, None, Food)
      && o.sale == sale.(items := o.sale.items)
      && o.nextItemId == n + 1
      && o.action == Action(None, [])
  {
    var o := Updated(sale, n, Message.Edit(AddItem), parsers);
    assert o.sale.items[..|sale.items|] == sale.items;
  }

  /**
   * RemoveItem drops every row with the id and keeps the others, in order
   * (`WithoutIdConcat`); an id no row carries changes nothing.
   */
  lemma RemoveItemKeepsOthers(sale: Sale, n: nat, parsers: Parsers, id: nat)
    ensures var o := Updated(sale, n, Message.Edit(RemoveItem(id)), parsers);
      && (forall x :: x in o.sale.items <==> x in sale.items && x.id != id)
      && o.sale == sale.(items := o.sale.items)
      && o.nextItemId == n
      && o.action == Action(None, [])
      && ((forall j :: 0 <= j < |sale.items| ==> sale.items[j].id != id) ==> o.sale == sale)
  {
    if forall j :: 0 <= j < |sale.items| ==> sale.items[j].id != id {
      WithoutAbsentId(sale.items, id);
    }
  }

  /** What `SetField` assigns, field by field; the id and the other fields keep their values. */
  lemma SetFieldChangesOneField(item: SaleItem, field: Field, parsers: Parsers)
    ensures var r := SetField(item, field, parsers);
      && r.id == item.id
      && (field.Name? ==> r == item.(name := field.name))
      && (field.Price? ==> r == item.(price := r.price))
      && (field.Price? && field.text == "" ==> r.price.None?)
      && (field.Price? && field.text != "" ==> r.price == parsers.price(field.text))
      && (field.Quantity? ==> r == item.(quantity := r.quantity))
      && (field.Quantity? && field.text == "" ==> r.quantity.None?)
      && (field.Quantity? && field.text != "" ==> r.quantity == parsers.quantity(field.text))
      && (field.TaxGroup? ==> r == item.(taxGroup := field.group))
  {
  }

  /** UpdateItem rewrites one field of the first row with the id and nothing else; an unknown id is a no-op. */
  lemma UpdateItemTouchesFirstMatch(sale: Sale, n: nat, parsers: Parsers, id: nat, field: Field)
    ensures var o := Updated(sale, n, Message.Edit(UpdateItem(id, field)), parsers);
      && o.nextItemId == n
      && o.action == Action(None, [])
      && o.sale == sale.(items := o.sale.items)
      && |o.sale.items| == |sale.items|
      && ((forall j :: 0 <= j < |sale.items| ==> sale.items[j].id != id) ==> o.sale == sale)
      && forall i :: 0 <= i < |sale.items| ==>
           o.sale.items[i] ==
             if i == FirstIndex(sale.items, id).GetOr(|sale.items|)
             then SetField(sale.items[i], field, parsers) else sale.items[i]
  {
  }

  /** With distinct ids, the first row carrying an id is the only one. */
  lemma FirstIndexIsTheMatch(items: seq<SaleItem>, n: nat, i: nat)
    requires IdsFresh(items, n)
    requires i < |items|
    ensures FirstIndex(items, items[i].id) == Some(i)
  {
  }

  /**
   * The row-submit focus policy: the first row with the id moves focus to
   * its name if empty, else its quantity if unset, else its price if unset;
   * a complete row gets a new blank row appended and focus goes to the name
   * of row `id + 1`. Exactly one focus effect, and no instruction. An
   * unknown id does nothing.
   */
  lemma SubmitItemFocusOrder(sale: Sale, n: nat, parsers: Parsers, id: nat)
    ensures var o := Updated(sale, n, Message.Edit(SubmitItem(id)), parsers);
      match FirstIndex(sale.items, id)
      case None => o == Outcome(sale, n, Action(None, []))
      case Some(i) =>
        var item := sale.items[i];
        && o.action.instruction.None?
        && |o.action.task| == 1
        && (item.name == "" ==> o == Outcome(sale, n, Action(None, [Focus("name", id)])))
        && (item.name != "" && item.quantity.None? ==>
              o == Outcome(sale, n, Action(None, [Focus("quantity", id)])))
        && (item.name != "" && item.quantity.Some? && item.price.None? ==>
              o == Outcome(sale, n, Action(None, [Focus("price", id)])))
        && (item.name != "" && item.quantity.Some? && item.price.Some? ==>
              && o.sale == sale.(items := sale.items + [DefaultItem(n)])
              && o.nextItemId == n + 1
              && o.action.task == [Focus("name", id + 1)])
  {
  }

  /**
   * When a complete row is submitted, the focus target `id + 1` is the
   * appended row's id exactly when the item counter stood at `id + 1`.
   */
  lemma SubmitFocusReachesNewRowIff(sale: Sale, n: nat, parsers: Parsers, i: nat)
    requires i < |sale.items|
    requires FirstIndex(sale.items, sale.items[i].id) == Some(i)
    requires sale.items[i].name != ""
    requires sale.items[i].quantity.Some? && sale.items[i].price.Some?
    ensures var o := Updated(sale, n, Message.Edit(SubmitItem(sale.items[i].id)), parsers);
      && |o.sale.items| == |sale.items| + 1
      && (o.action.task[0].itemId == o.sale.items[|sale.items|].id <==> n == sale.items[i].id + 1)
  {
  }

  /** A concrete sale where the focus move after a complete row lands on an old row, not the new one. */
  lemma SubmitFocusCanMissNewRow(parsers: Parsers)
    ensures var row0 := SaleItem(0, "tea", Some(2.0), Some(1), Food);
      var row1 := SaleItem(1, "cake", Some(3.0), Some(1), Food);
      var o := Updated(Sale([row0, row1], None, None, "table 4"), 2, Message.Edit(SubmitItem(0)), parsers);
      && o.action.task == [Focus("name", 1)]
      && o.sale.items[2].id == 2
  {
  }

  /** NameInput sets the sale's name and nothing else, and asks for nothing. */
  lemma NameInputSetsOnlyName(sale: Sale, n: nat, parsers: Parsers, name: string)
    ensures Updated(sale, n, Message.Edit(NameInput(name)), parsers) ==
      Outcome(sale.(name := name), n, Action(None, []))
  {
  }

  /** UpdateServiceCharge and UpdateGratuity set their own field and nothing else. */
  lemma ChargeUpdatesSetTheirField(sale: Sale, n: nat, parsers: Parsers, v: real)
    ensures Updated(sale, n, Message.Edit(UpdateServiceCharge(v)), parsers) ==
      Outcome(sale.(serviceChargePercent := Some(v)), n, Action(None, []))
    ensures Updated(sale, n, Message.Edit(UpdateGratuity(v)), parsers) ==
      Outcome(sale.(gratuityAmount := Some(v)), n, Action(None, []))
  {
  }

  // ---------------------------------------------------------------------
  // Item ids

  /** A row whose id is fresh and unused can go in front. */
  lemma ConsKeepsFresh(x: SaleItem, tail: seq<SaleItem>, n: nat)
    requires IdsFresh(tail, n) && x.id < n
    requires forall y :: y in tail ==> y.id != x.id
    ensures IdsFresh([x] + tail, n)
  {
    var r := [x] + tail;
    forall i, j | 0 <= i < j < |r|
      ensures r[i].id != r[j].id
    {
      assert r[j] == tail[j - 1];
      if i > 0 {
        assert r[i] == tail[i - 1];
      } else {
        assert r[j] in tail;
      }
    }
  }

  /** Removing rows keeps the remaining ids fresh and distinct. */
  lemma {:induction false} WithoutIdKeepsFresh(items: seq<SaleItem>, n: nat, id: nat)
    requires IdsFresh(items, n)
    ensures IdsFresh(WithoutId(items, id), n)
  {
    if items != [] {
      var rest := items[1..];
      assert IdsFresh(rest, n) by {
        forall i, j | 0 <= i < j < |rest|
          ensures rest[i].id != rest[j].id
        {
          assert rest[i] == items[i + 1] && rest[j] == items[j + 1];
        }
      }
      WithoutIdKeepsFresh(rest, n, id);
      var tail := WithoutId(rest, id);
      if items[0].id != id {
        forall y | y in tail
          ensures y.id != items[0].id
        {
          assert y in rest;
          var k :| 0 <= k < |rest| && rest[k] == y;
          assert items[k + 1] == y;
        }
        ConsKeepsFresh(items[0], tail, n);
      } else {
        assert WithoutId(items, id) == [] + tail;
      }
    }
  }

  /** Appending a blank row with the counter's id, then advancing the counter, keeps ids fresh. */
  lemma AppendKeepsFresh(items: seq<SaleItem>, n: nat)
    requires IdsFresh(items, n)
    ensures IdsFresh(items + [DefaultItem(n)], n + 1)
  {
  }

  /** Rewriting one row's fields other than its id keeps ids fresh. */
  lemma ReplaceKeepsFresh(items: seq<SaleItem>, n: nat, i: nat, x: SaleItem)
    requires IdsFresh(items, n) && i < |items| && x.id == items[i].id
    ensures IdsFresh(items[i := x], n)
  {
  }

  /** Every message keeps item ids below the counter and distinct; the counter never goes back. */
  lemma UpdateKeepsIdsFresh(sale: Sale, n: nat, m: Message, parsers: Parsers)
    requires IdsFresh(sale.items, n)
    ensures var o := Updated(sale, n, m, parsers);
      IdsFresh(o.sale.items, o.nextItemId) && n <= o.nextItemId
  {
    var o := Updated(sale, n, m, parsers);
    match m {
      case Show(_) =>
        assert o.sale.items == sale.items && o.nextItemId == n;
      case Edit(RemoveItem(id)) =>
        assert o.sale.items == WithoutId(sale.items, id) && o.nextItemId == n;
        WithoutIdKeepsFresh(sale.items, n, id);
      case Edit(UpdateItem(id, field)) =>
        if FirstIndex(sale.items, id).Some? {
          var i := FirstIndex(sale.items, id).value;
          var x := SetField(sale.items[i], field, parsers);
          assert o.sale.items == sale.items[i := x] && o.nextItemId == n;
          ReplaceKeepsFresh(sale.items, n, i, x);
        } else {
          assert o.sale.items == sale.items && o.nextItemId == n;
        }
      case Edit(AddItem) =>
        AppendKeepsFresh(sale.items, n);
      case Edit(NameSubmit) =>
        AppendKeepsFresh(sale.items, n);
      case Edit(SubmitItem(id)) =>
        AppendKeepsFresh(sale.items, n);
        assert o.sale.items == sale.items || o.sale.items == sale.items + [DefaultItem(n)];
      case Edit(_) =>
        assert o.sale.items == sale.items && o.nextItemId == n;
    }
  }

  /** The ids the rows carry. */
  ghost function Ids(items: seq<SaleItem>): set<nat>
  {
    set i | 0 <= i < |items| :: items[i].id
  }

  /** Fresh ids are all below the counter, so the counter's value is not among them. */
  lemma FreshIdsBelow(items: seq<SaleItem>, n: nat)
    requires IdsFresh(items, n)
    ensures forall v :: v in Ids(items) ==> v < n
  {
  }

  /** Removing rows by id leaves only ids that were there. */
  lemma WithoutIdIds(items: seq<SaleItem>, id: nat)
    ensures Ids(WithoutId(items, id)) <= Ids(items)
  {
    var r := WithoutId(items, id);
    forall v | v in Ids(r)
      ensures v in Ids(items)
    {
      var i :| 0 <= i < |r| && r[i].id == v;
      assert r[i] in r;
      var j :| 0 <= j < |items| && items[j] == r[i];
    }
  }

  /** Appending one row adds exactly its id. */
  lemma AppendIds(items: seq<SaleItem>, x: SaleItem)
    ensures Ids(items + [x]) == Ids(items) + {x.id}
  {
    var r := items + [x];
    assert r[|items|] == x;
    forall v | v in Ids(r)
      ensures v in Ids(items) + {x.id}
    {
      var i :| 0 <= i < |r| && r[i].id == v;
      if i < |items| {
        assert r[i] == items[i];
      }
    }
    forall v | v in Ids(items)
      ensures v in Ids(r)
    {
      var i :| 0 <= i < |items| && items[i].id == v;
      assert r[i] == items[i];
    }
  }

  /** Rewriting one row without touching its id keeps the set of ids. */
  lemma ReplaceIds(items: seq<SaleItem>, i: nat, x: SaleItem)
    requires i < |items| && x.id == items[i].id
    ensures Ids(items[i := x]) == Ids(items)
  {
    var r := items[i := x];
    forall v | v in Ids(r)
      ensures v in Ids(items)
    {
      var j :| 0 <= j < |r| && r[j].id == v;
      assert items[j].id == v;
    }
    forall v | v in Ids(items)
      ensures v in Ids(r)
    {
      var j :| 0 <= j < |items| && items[j].id == v;
      assert r[j].id == v;
    }
  }

  /**
   * Every row after `update` carries an id the sale already had or the
   * counter's old value: `update` takes no id from anywhere else.
   */
  lemma UpdateDrawsIdsFromCounter(sale: Sale, n: nat, m: Message, parsers: Parsers)
    ensures Ids(Updated(sale, n, m, parsers).sale.items) <= Ids(sale.items) + {n}
  {
    var o := Updated(sale, n, m, parsers);
    if o.nextItemId == n + 1 {
      AppendIds(sale.items, DefaultItem(n));
    } else {
      match m {
        case Edit(RemoveItem(id)) =>
          WithoutIdIds(sale.items, id);
        case Edit(UpdateItem(id, field)) =>
          if FirstIndex(sale.items, id).Some? {
            var i := FirstIndex(sale.items, id).value;
            ReplaceIds(sale.items, i, SetField(sale.items[i], field, parsers));
          }
        case _ =>
          assert o.sale.items == sale.items;
      }
    }
  }

  /** A larger counter keeps ids fresh. */
  lemma IdsFreshMonotonic(items: seq<SaleItem>, n: nat, n': nat)
    requires IdsFresh(items, n) && n <= n'
    ensures IdsFresh(items, n')
  {
  }

  // ---------------------------------------------------------------------
  // Totals

  /** The subtotal of two runs of rows is the sum of their subtotals. */
  lemma {:induction false} SubtotalAppend(a: seq<SaleItem>, b: seq<SaleItem>)
    ensures Subtotal(a + b) == Subtotal(a) + Subtotal(b)
  {
    if a != [] {
      assert (a + b)[1..] == a[1..] + b;
      SubtotalAppend(a[1..], b);
    } else {
      assert a + b == b;
    }
  }

  /** The tax of two runs of rows is the sum of their taxes. */
  lemma {:induction false} TaxAppend(a: seq<SaleItem>, b: seq<SaleItem>, rate: RateTable)
    ensures Tax(a + b, rate) == Tax(a, rate) + Tax(b, rate)
  {
    if a != [] {
      var x := a[0];
      assert (a + b)[1..] == a[1..] + b;
      assert Tax(a + b, rate) == LineAmount(x) * rate(x.taxGroup) + Tax(a[1..] + b, rate);
      assert Tax(a, rate) == LineAmount(x) * rate(x.taxGroup) + Tax(a[1..], rate);
      TaxAppend(a[1..], b, rate);
    } else {
      assert a + b == b;
    }
  }

  /** A blank row has no price and no quantity, so appending it changes none of the totals. */
  lemma BlankRowChangesNoTotal(sale: Sale, n: nat, rate: RateTable)
    ensures var s' := sale.(items := sale.items + [DefaultItem(n)]);
      && Subtotal(s'.items) == Subtotal(sale.items)
      && Tax(s'.items, rate) == Tax(sale.items, rate)
      && ServiceCharge(s') == ServiceCharge(sale)
      && Total(s', rate) == Total(sale, rate)
  {
    SubtotalAppend(sale.items, [DefaultItem(n)]);
    TaxAppend(sale.items, [DefaultItem(n)], rate);
  }

  /** When every row's group has the same rate, the tax is the subtotal at that rate. */
  lemma {:induction false} TaxAtUniformRate(items: seq<SaleItem>, rate: RateTable, r: real)
    requires forall i :: 0 <= i < |items| ==> rate(items[i].taxGroup) == r
    ensures Tax(items, rate) == Subtotal(items) * r
  {
    if items != [] {
      var line := LineAmount(items[0]);
      var rest := items[1..];
      assert Tax(items, rate) == line * r + Tax(rest, rate);
      assert Subtotal(items) == line + Subtotal(rest);
      TaxAtUniformRate(rest, rate, r);
      assert (line + Subtotal(rest)) * r == line * r + Subtotal(rest) * r;
    }
  }

  /**
   * One row at 10.00 times 2 in a group taxed at 8%, a 10% service charge
   * and a 5.00 gratuity: subtotal 20.00, tax 1.60, service charge 2.00,
   * total 28.60.
   */
  lemma ExampleReceipt()
    ensures var sale := Sale([SaleItem(0, "dinner", Some(10.0), Some(2), Other("standard"))],
                             Some(10.0), Some(5.0), "table 1");
      var rate := (g: TaxGroup) => if g == Other("standard") then 0.08 else 0.0;
      && Subtotal(sale.items) == 20.0
      && Tax(sale.items, rate) == 1.6
      && ServiceCharge(sale) == 2.0
      && Total(sale, rate) == 28.6
  {
  }
}
