/** Types shared by every component. */
module Prelude {

  datatype Option<+T> = None | Some(value: T)

  /** `.unwrap_or(default)`. */
  function OrElse<T>(v: Option<T>, default: T): T {
    match v
    case Some(x) => x
    case None => default
  }

  ghost predicate NoRepeats<T(!new)>(s: seq<T>) {
    forall i, j | 0 <= i < j < |s| :: s[i] != s[j]
  }

  lemma LastUpdateWins<K, V>(m: map<K, V>, k: K, first: V, last: V)
    ensures m[k := first][k := last] == m[k := last]
  {
  }
}
