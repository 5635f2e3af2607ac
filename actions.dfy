/**
 * The envelope a child update hands to its parent. action.rs is not part of
 * this model; the envelope is reconstructed from its use in main.rs and
 * sale.rs.
 *
 * An `Action` carries an optional instruction for the parent to interpret
 * and the deferred effects the child wants scheduled. Deferred effects are
 * not executed here: they are tokens naming the focus request they stand
 * for, and a task is the ordered sequence of them (`Task::none()` is the
 * empty sequence, `a.chain(b)` is `a + b`).
 */
module Actions {
  import opened Wrappers

  /** A deferred focus request. */
  datatype Effect =
    | FocusNext                           // iced `focus_next()`
    | Focus(field: string, itemId: int)   // `text_input::focus(form_id(field, itemId))`

  type Task = seq<Effect>

  datatype Action<I> = Action(instruction: Option<I>, task: Task)

  /** `Action::none()`. */
  function NoAction<I>(): Action<I>
  {
    Action(None, [])
  }

  /** `Action::instruction(i)`. */
  function Instruct<I>(i: I): Action<I>
  {
    Action(Some(i), [])
  }

  /** `Action::task(e)`. */
  function Schedule<I>(e: Effect): Action<I>
  {
    Action(None, [e])
  }

  /** `a.with_task(e)`. */
  function WithTask<I>(a: Action<I>, e: Effect): Action<I>
  {
    a.(task := [e])
  }
}
