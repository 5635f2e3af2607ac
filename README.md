# iced_receipts: the workflow coordinator and the sale editor, in Dafny

A model of the two pieces of logic at the heart of the iced_receipts point-of-sale editor:

- **The workflow coordinator** (`src/main.rs`, the `App`). It holds a screen (`List`, `Sale(View, id)` or `Sale(Edit, id)`) and a store with three parts: a map of committed sales, exactly one draft `(id, sale)`, and a sale-id counter. It routes each per-sale message to the draft or to the committed entry with that id. It interprets the four instructions the editor sends up (Back, Save, StartEdit, Cancel). Save on the draft commits it and installs a fresh blank draft under the next id.
- **The sale editor** (`src/sale.rs`). `update` edits the ordered item list: append, remove by id, update one field of the first row with an id, set the charges. It also decides the row-submit focus policy: name, then quantity, then price, then append a new row. The totals are sums over the rows.

Files:

- `wrappers.dfy`: `Option`.
- `actions.dfy`: the `Action` envelope a child returns to its parent. It holds an optional instruction and a task. A task is an ordered sequence of deferred focus effects, recorded as tokens. `Task::none()` is `[]` and `chain` is `+`.
- `sale_editor.dfy`, module `SaleEditor`: items, sales, messages and totals. `Updated` is a specification function. The method `Update` computes it, with `Retain` and `FindFirst` as the two loops.
- `sale_properties.dfy`, module `SaleProperties`: what `update` and the totals promise.
- `workflow.dfy`, module `Workflow`: the store as a value (`State`), the specification functions `Transition` (`App::update`) and `Performed` (`App::perform`), the store invariant (including item ids unique across all sales) and its preservation, `HandleEvent`, and the `App` class. `App`'s methods change its fields in place and are proved equal to the specification functions.
- `workflow_properties.dfy`, module `WorkflowProperties`: what the coordinator promises.

Modelling choices:

- A `Sale` is a value. The coordinator owns every sale exclusively, in its `HashMap` and in the draft tuple, and lends it out as `&mut Sale`. So `SaleEditor.Update` takes the old sale and returns the new one, and the coordinator writes it back where it found it.
- The process-wide item counter `NEXT_ID` (`src/sale.rs:29`) is the field `App.nextItemId`. It is threaded through `SaleEditor.Update`.
- Amounts are `real`. Quantities are `nat`.
- `TaxGroup::tax_rate`, `str::parse` for prices and quantities, and the per-mode hotkey handlers are parameters: `RateTable`, `Parsers` and `HotkeyMap`. `TaxGroup` is `Food`, the only group the core names, or `Other(code)`.
- `list::Message`, `show::Message`, `edit::Message` and `edit::Field` are read off the exhaustive `match`es over them in `src/main.rs` and `src/sale.rs`. `main.rs` says `sale::Operation` where `sale.rs` declares `Instruction`; the model treats them as one enum.
- `expect("Sale should exist")` panics. It becomes the precondition `CanHandle` of `App.Update` and `Transition`.

## Model

| member | source | states |
|---|---|---|
| `SaleEditor.DefaultItem` | src/sale.rs:27-38 | a new row takes the item counter's value as its id; it has an empty name, no price, no quantity and the Food group, so its line amount is 0 |
| `SaleEditor.DefaultSale` | src/sale.rs:64-73 | a new sale has no rows, no charges and an empty name, so its subtotal and service charge are 0 |
| `SaleEditor.PriceOf` | src/sale.rs:42-44 | an unset price reads as 0, a set one as its value |
| `SaleEditor.QuantityOf` | src/sale.rs:45-47 | an unset quantity reads as 0, a set one as its value |
| `SaleEditor.Subtotal` | src/sale.rs:76-81 | when no row has both a price and a quantity, the subtotal is 0 (its sum over joined rows is `SubtotalAppend`) |
| `SaleEditor.Tax` | src/sale.rs:83-90 | when no row has both a price and a quantity, the tax is 0 whatever the rates (its sum over joined rows is `TaxAppend`) |
| `SaleEditor.ServiceCharge` | src/sale.rs:92-98 | 0 when no percentage is set, otherwise the subtotal times the percentage over 100 |
| `SaleEditor.Total` | src/sale.rs:100-107 | subtotal plus tax plus service charge plus the gratuity, the gratuity counting 0 when unset |
| `SaleEditor.WithoutId` | src/sale.rs:153-156 | the rows kept by `retain` are exactly the rows whose id differs from the removed id |
| `SaleEditor.FirstIndex` | src/sale.rs:157-158 | `find` stops at a row with the id and no earlier row has it; it finds nothing exactly when no row has the id |
| `SaleEditor.Retain` | src/sale.rs:153-156 | the loop over the rows keeps exactly `WithoutId` of them, in order |
| `SaleEditor.FindFirst` | src/sale.rs:157-183 | the linear search behind both `find`s (UpdateItem at line 158, SubmitItem at line 183) returns the position `FirstIndex` specifies |
| `SaleEditor.Updated` | src/sale.rs:124-217 | an instruction comes back exactly for Back, StartEdit, Cancel and Save, and then the sale and counter are untouched; at most one focus effect; the item counter advances by at most one, exactly when one row is added, and that row is a blank one carrying the counter's old value, after the unchanged rows |
| `SaleEditor.Update` | src/sale.rs:124-217 | `update` returns exactly the sale, item counter and action `Updated` specifies; the properties of `Updated` are the `SaleProperties` lemmas |
| `SaleEditor.WithoutIdConcat` | src/sale.rs:153-156 | removing by id distributes over concatenation, so the kept rows stay in their original order |
| `SaleEditor.WithoutIdSnoc` | src/sale.rs:154 | removing by id from rows grown by one at the back keeps that row exactly when its id differs, after the kept earlier rows |
| `SaleEditor.WithoutAbsentId` | src/sale.rs:153-156 | removing an id no row carries changes nothing |
| `SaleProperties.ControlMessagesOnlyInstruct` | src/sale.rs:129-138 | Back, StartEdit, Cancel and Save leave the sale and the counter alone and return the matching instruction; only StartEdit adds a focus-next effect |
| `SaleProperties.NameSubmitAddsFirstRow` | src/sale.rs:143-148 | submitting the name changes the sale exactly when it has no rows, by adding one blank row; focus-next is always returned |
| `SaleProperties.AddItemAppendsBlankRow` | src/sale.rs:149-152 | one blank row with the counter's id goes at the end; the existing rows are unchanged and in order; the counter advances by one |
| `SaleProperties.RemoveItemKeepsOthers` | src/sale.rs:153-156 | the rows with the id go and every other row stays; name, charges and counter are unchanged; an unknown id is a no-op |
| `SaleProperties.SetFieldChangesOneField` | src/sale.rs:159-175 | each field update sets only its field; empty text sets price or quantity to unset, other text sets the parse result (unset when it fails) |
| `SaleProperties.UpdateItemTouchesFirstMatch` | src/sale.rs:157-179 | only the first row with the id changes, by that field; every other row, the name, the charges and the counter stay; no instruction or effect; an unknown id changes nothing |
| `SaleProperties.FirstIndexIsTheMatch` | src/sale.rs:158 | when ids are distinct, the first row with an id is the only row with it |
| `SaleProperties.SubmitItemFocusOrder` | src/sale.rs:180-206 | for an existing row: exactly one focus effect and no instruction; focus goes to the name if empty, else the quantity if unset, else the price if unset, else a blank row is appended and focus goes to the name of `id + 1`; for an unknown id nothing happens |
| `SaleProperties.SubmitFocusReachesNewRowIff` | src/sale.rs:196-201 | after a complete row is submitted, the focus target `id + 1` is the appended row's id if and only if the item counter stood at `id + 1` |
| `SaleProperties.SubmitFocusCanMissNewRow` | src/sale.rs:196-201 | a concrete sale where submitting the first of two complete rows focuses row 1 while the new row is row 2 |
| `SaleProperties.NameInputSetsOnlyName` | src/sale.rs:139-142 | NameInput sets the sale's name; rows, charges and counter are unchanged; no instruction and no task |
| `SaleProperties.ChargeUpdatesSetTheirField` | src/sale.rs:207-214 | the service charge percent or the gratuity becomes `Some(value)`; nothing else changes |
| `SaleProperties.WithoutIdKeepsFresh` | src/sale.rs:153-156 | removing rows keeps the remaining ids distinct and below the counter |
| `SaleProperties.UpdateKeepsIdsFresh` | src/sale.rs:124-217 | every message keeps each sale's row ids distinct and below the item counter, and the counter never goes back |
| `SaleProperties.WithoutIdIds` | src/sale.rs:153-156 | removing rows by id leaves only ids the rows already carried |
| `SaleProperties.AppendIds` | src/sale.rs:150 | pushing one row adds exactly its id to the ids of the sale |
| `SaleProperties.ReplaceIds` | src/sale.rs:158-176 | rewriting one field of a found row keeps the sale's set of ids |
| `SaleProperties.UpdateDrawsIdsFromCounter` | src/sale.rs:124-217 | after any message every row's id is one the sale already had or the item counter's old value |
| `SaleProperties.SubtotalAppend` | src/sale.rs:76-81 | the subtotal of two runs of rows is the sum of their subtotals |
| `SaleProperties.TaxAppend` | src/sale.rs:83-90 | the tax of two runs of rows is the sum of their taxes |
| `SaleProperties.BlankRowChangesNoTotal` | src/sale.rs:100-107 | appending a blank row changes neither the subtotal, the tax, the service charge nor the total |
| `SaleProperties.TaxAtUniformRate` | src/sale.rs:83-90 | when every row's group has rate r, the tax is the subtotal times r |
| `SaleProperties.ExampleReceipt` | src/sale.rs:76-107 | one row at 10.00 x 2 taxed at 8%, a 10% service charge and a 5.00 gratuity give subtotal 20.00, tax 1.60, service charge 2.00, total 28.60 |
| `Workflow.Initial` | src/main.rs:73-84 | the initial state satisfies the whole invariant, its screen refers to nothing, and sale 0 (the draft) is the only sale that exists |
| `Workflow.Performed` | src/main.rs:155-194 | the store (map, draft, sale counter) changes exactly when the instruction is Save of the draft; every instruction but Back lands on a screen of the sale that sent it; the item counter is untouched |
| `Workflow.Transition` | src/main.rs:86-139 | the sale counter moves by at most one; when it moves, the old draft id has joined the committed keys and a blank draft holds the old counter value; otherwise the committed keys and the draft id are unchanged |
| `Workflow.HandleEvent` | src/main.rs:207-216 | an event becomes a message exactly when it is a key press of Escape or Tab; the message is a hotkey, Escape for Escape, and Tab carries the modifiers of its key press |
| `Workflow.PerformedKeepsInvariant` | src/main.rs:155-194 | every instruction keeps the store invariant, row ids distinct and below the item counter, and no item id shared by two sales |
| `Workflow.StoreKeepsInvariant` | src/main.rs:117-127 | editing the draft or a committed sale and writing it back keeps the whole invariant |
| `Workflow.EditKeepsIdsUnique` | src/main.rs:117-127 | after an edit written back to its slot, the draft still shares no item id with a committed sale and no two committed sales share one |
| `Workflow.TransitionKeepsInvariant` | src/main.rs:86-139 | every message keeps the draft id out of the committed keys, the counter above every id, row ids distinct and below the item counter, and every item id in at most one sale |
| `Workflow.TransitionKeepsScreenResolvable` | src/main.rs:86-139 | if the list offers only existing sales, the screen only ever refers to the draft or a committed sale |
| `Workflow.App.constructor` | src/main.rs:73-84 | `App::new` builds the initial state: list screen, no committed sales, blank draft 0, counter 1 |
| `Workflow.App.Perform` | src/main.rs:155-194 | the fields change as `Performed` says, the invariant is kept, and the returned task is empty |
| `Workflow.App.Update` | src/main.rs:86-139 | the fields and the returned task are those of `Transition`: perform's (empty) task chained before the child's task; the invariant is kept |
| `WorkflowProperties.InitialState` | src/main.rs:73-84 | the start is the list screen, an empty committed map, a blank draft with id 0 and the counter at 1, and the invariant holds |
| `WorkflowProperties.SaveCommitsDraft` | src/main.rs:165-179 | Save on the draft puts the draft sale into the map under the old draft id, installs a blank draft at the old counter value, advances the counter by 1 and shows the old id; the invariant is kept; no task |
| `WorkflowProperties.SaveCommittedOnlyShows` | src/main.rs:180-182 | Save for a committed id only sets the screen to view that id; map, draft and counters are unchanged |
| `WorkflowProperties.SavesCommitConsecutiveIds` | src/main.rs:165-179 | after k saves of the draft from the start, the committed ids are exactly 0 to k-1, the draft is blank with id k, and the counter is k+1 |
| `WorkflowProperties.CommitNextDraft` | src/main.rs:165-179 | from committed ids exactly 0 to k-1, blank draft k and counter k+1, one more Save of the draft commits k, drafts a blank k+1 and moves the counter to k+2, keeping the invariant |
| `WorkflowProperties.TransitionNeverReusesIds` | src/main.rs:86-139 | no message removes a committed key or moves a counter back; the old draft id stays the draft's or becomes committed; a new draft id is the old counter value |
| `WorkflowProperties.RowIdsDifferAcrossSales` | src/sale.rs:29-32 | under the invariant, rows of two different sales (draft or committed) never carry the same item id, as every id comes from the one process-wide counter |
| `WorkflowProperties.BackAscends` | src/main.rs:158-164 | Back follows the current screen: edit goes to view of the same sale, view goes to the list, and the list is unchanged |
| `WorkflowProperties.ListTransitions` | src/main.rs:88-93 | NewSale goes to editing the draft and SelectSale(id) to viewing id; nothing else changes and no task |
| `WorkflowProperties.StartEditAndCancelOnlyMoveScreen` | src/main.rs:184-189 | StartEdit goes to editing the sale with a focus-next task; Cancel goes to viewing it, with no rollback; no sale data changes |
| `WorkflowProperties.EscapeAscends` | src/main.rs:94-115 | if the hotkey handlers map Escape to Back when viewing and to Cancel when editing, Escape goes up one level and changes nothing else |
| `WorkflowProperties.SaleMessageEditsOnlyItsSale` | src/main.rs:117-135 | a per-sale message other than Save changes only the draft when its id is the draft id, and otherwise only the committed entry with that id; the sale counter is unchanged and the returned task is the editor's own |
| `WorkflowProperties.HotkeysOnlyInstruct` | src/main.rs:94-115 | hotkeys on the list do nothing; on a sale screen the returned task is the handler's, and without a Save instruction only the screen can change |

## Left out

- Rendering and runtime glue: `view`, `main`, `theme`, `subscription` and `title`. They are presentation, not state.
- `f32` arithmetic, rounding and the `{:.2}` formatting of `price_string`/`quantity_string`. Amounts are exact `real`s, so no claim about float equality is made.
- `TaxGroup::tax_rate` and the other tax groups: tax.rs is not part of this model. The rate table is a parameter.
- The grammar of Rust's `str::parse` for `f32` and `u32`: a parser is a parameter returning `Option`. The `u32` range of quantities is therefore not modelled.
- `AtomicUsize` and `fetch_add` are modelled as plain counters. They exist for a static, not for concurrency. Wrap-around of `usize` ids (including the `id + 1` focus target) is not modelled, because ids are unbounded `nat`s.
- Executing iced tasks: `focus_next`, `text_input::focus` and `edit::form_id` are effect tokens that record the target field name and id. `Task::chain` is sequence concatenation. Nothing is run.
- `show::handle_hotkey`, `edit::handle_hotkey`, the list module and the other fields of iced's key-press event are not part of this model. The hotkey-to-action mapping is a parameter. `EscapeAscends` assumes only the mapping it names.
- `HandleEvent` ignores the event status and the window id, as `handle_event` does. They are not parameters of the model.
- The `&mut Sale` borrow is modelled as returning a new sale value and writing it back. Nothing else can observe the sale during the call, so no aliasing is lost.
