/** Optional values and dynamically typed inputs. */
module Wrappers {

  /** JavaScript's `undefined` / `null` next to a present value. */
  datatype Option<+T> = None | Some(value: T)

  /** A value of any JavaScript type, seen only as far as the email code looks at it:
      a string, or something that is not one (`undefined`, `null`, a number, ...). */
  datatype JsValue = StringValue(s: string) | OtherValue
}
