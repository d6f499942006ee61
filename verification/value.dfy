/** `ValueType<T>`: the read-only wrapper every value object extends. It
    validates nothing; the subclasses check their input before wrapping it. */
module Value {

  datatype ValueType<+T> = ValueType(value: T) {

    function GetValue(): T {
      value
    }
  }

  /** The constructor: accepts every value and wraps it unchanged. */
  function Wrap<T>(v: T): (w: ValueType<T>)
    ensures w.GetValue() == v
  {
    ValueType(v)
  }

  /** `toString()` is `String(value)`; every wrapper in this service holds a
      string, and `String` of a string is that string. */
  function ToString(w: ValueType<string>): (s: string)
    ensures s == w.GetValue()
  {
    w.value
  }

  /** Two wrappers are equal exactly when they wrap the same value: nothing but
      the value is stored, and nothing can change it after construction. */
  lemma WrapInjective<T>(a: T, b: T)
    ensures Wrap(a) == Wrap(b) <==> a == b
  {
  }
}
