/**
 * Flink's four row kinds and `turnRowKind`, which replaces a row's kind by
 * the one that cancels it while a partition is retracting.
 */
module RowKinds {

  /** Flink's `RowKind`. */
  datatype RowKind = Insert | UpdateBefore | UpdateAfter | Delete

  /** Flink's short notation for a row kind: `+I`, `-U`, `+U`, `-D`. */
  function ShortString(k: RowKind): string {
    match k
    case Insert => "+I"
    case UpdateBefore => "-U"
    case UpdateAfter => "+U"
    case Delete => "-D"
  }

  /** `-U` and `+U`, the two halves of an update, as opposed to `+I` and `-D`. */
  predicate IsUpdate(k: RowKind) {
    ShortString(k)[1] == 'U'
  }

  /** A row as far as the helper is concerned: its kind and the fields it carries unchanged. */
  datatype Row<T> = Row(kind: RowKind, fields: T)

  /**
   * The kind that cancels `k`: `+I` and `-D` swap, `-U` and `+U` swap. In
   * short notation the sign flips, and an update stays an update.
   */
  function Inverse(k: RowKind): (r: RowKind)
    ensures ShortString(r)[0] != ShortString(k)[0]
    ensures IsUpdate(r) == IsUpdate(k)
  {
    match k
    case Insert => Delete
    case Delete => Insert
    case UpdateAfter => UpdateBefore
    case UpdateBefore => UpdateAfter
  }

  /** `turnRowKind`: the same row with its kind inverted and its fields untouched. */
  function TurnRowKind<T>(row: Row<T>): (r: Row<T>)
    ensures r.fields == row.fields
    ensures r.kind == Inverse(row.kind)
    ensures r.kind != row.kind
  {
    row.(kind := Inverse(row.kind))
  }

  /** Flipping the sign while keeping updates as updates singles out one kind: the inverse. */
  lemma InverseUnique(k: RowKind, r: RowKind)
    requires ShortString(r)[0] != ShortString(k)[0]
    requires IsUpdate(r) == IsUpdate(k)
    ensures r == Inverse(k)
  {
  }

  /** Turning a row's kind twice gives back the row. */
  lemma TurnRowKindInvolution<T>(row: Row<T>)
    ensures TurnRowKind(TurnRowKind(row)) == row
  {
  }
}
