/** Shared value wrappers: Ruby's `nil` becomes `None`. */
module Common {

  datatype Option<+T> = None | Some(value: T) {
    function GetOr(default: T): T {
      match this
      case Some(v) => v
      case None => default
    }
  }

  /** A loosely typed Ruby value, where an operation tests the class of its argument. */
  datatype RubyValue = Symbol(name: string) | Str(s: string) | Nil | OtherValue

  /** The entry stored under `key`, or `None` when the hash has no such key (Ruby's `hash[key]`). */
  function Lookup<K, V>(m: map<K, V>, key: K): Option<V> {
    if key in m then Some(m[key]) else None
  }
}
