/**
 * The value types of the weekly schedule: task templates, tasks with their
 * optional state fields, and the small wrappers the rest of the model uses.
 *
 * A JavaScript field that is `undefined` and a field that is absent behave the
 * same everywhere in the modelled code, so both are `None` (or `Unset`) here.
 */
module Types {

  /** A task id: the join key between a task template and its overlay entry. */
  type Id = string

  datatype Option<T> = None | Some(value: T)

  /** A value, or the message of the error thrown instead of returning it. */
  datatype Result<T> = Success(value: T) | Failure(error: string)

  /** The `datetime?: string | null` field: absent, `null`, or an ISO date text. */
  datatype Datetime = Unset | Null | At(text: string)

  /** JavaScript truthiness of a `datetime` value: a non-empty string. */
  predicate Truthy(d: Datetime)
  {
    d.At? && d.text != ""
  }

  /** JavaScript truthiness of an optional boolean field. */
  predicate IsTrue(b: Option<bool>)
  {
    b == Some(true)
  }

  /**
   * A task template of one day: the fields fixed at build time. The source
   * calls the category field `type`, which is a keyword in Dafny.
   */
  datatype Item = Item(id: Id, time: string, task: string, category: string)

  /** A task: the template fields together with the optional state fields. */
  datatype Task = Task(
    id: Id,
    time: string,
    task: string,
    category: string,
    done: Option<bool>,
    datetime: Datetime,
    notified: Option<bool>,
    priority: Option<int>,
    reason: Option<string>)

  /** A day of the week and its task templates, in display order. */
  datatype Day = Day(day: string, items: seq<Item>)

  /**
   * A JavaScript `Date` as seen through `getTime()`: milliseconds since the
   * epoch, or `None` for an invalid date (whose `getTime()` is NaN).
   */
  datatype JsDate = JsDate(getTime: Option<int>)
}
