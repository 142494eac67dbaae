/**
 * The operator table of the has_filter plugin: eight named filters, each
 * with the SQL comparison it compiles to and the wrapper, if any, that is put
 * around the bound value (the table's `sprintf` formats `%%%s%`, `%s%` and
 * `%%%s`, read as "surrounded by `%`", "followed by `%`" and "preceded by
 * `%`").
 */
module Operators {
  import opened Wrappers

  /** Where the value sits inside the `LIKE` pattern. */
  datatype Format =
    | Anywhere   // `%value%`
    | Leading    // `value%`
    | Trailing   // `%value`

  function Wrap(f: Format, v: string): string
  {
    match f
    case Anywhere => "%" + v + "%"
    case Leading => v + "%"
    case Trailing => "%" + v
  }

  /** Recovers the value from a wrapped pattern; the partner of `Wrap`. */
  function Unwrap(f: Format, w: string): Option<string>
  {
    match f
    case Anywhere =>
      if 2 <= |w| && w[0] == '%' && w[|w| - 1] == '%' then Some(w[1..|w| - 1]) else None
    case Leading =>
      if 1 <= |w| && w[|w| - 1] == '%' then Some(w[..|w| - 1]) else None
    case Trailing =>
      if 1 <= |w| && w[0] == '%' then Some(w[1..]) else None
  }

  lemma UnwrapWrap(f: Format, v: string)
    ensures Unwrap(f, Wrap(f, v)) == Some(v)
  {
    var w := Wrap(f, v);
    match f
    case Anywhere => assert w[1..|w| - 1] == v;
    case Leading => assert w[..|w| - 1] == v;
    case Trailing => assert w[1..] == v;
  }

  lemma WrapUnwrap(f: Format, w: string)
    ensures Unwrap(f, w).Some? ==> Wrap(f, Unwrap(f, w).value) == w
  {
    if Unwrap(f, w).Some? {
      match f
      case Anywhere => assert w == [w[0]] + w[1..|w| - 1] + [w[|w| - 1]];
      case Leading => assert w == w[..|w| - 1] + [w[|w| - 1]];
      case Trailing => assert w == [w[0]] + w[1..];
    }
  }

  /** The eight filters of the table. */
  datatype Operator =
    | Contains | DoesNotContain
    | StartsWith | DoesNotStartWith
    | EndsWith | DoesNotEndWith
    | Is | IsNot

  /** One row of the table: the SQL operator and the optional value format. */
  datatype Row = Row(sql: string, format: Option<Format>)

  const AllOperators: seq<Operator> :=
    [Contains, DoesNotContain, StartsWith, DoesNotStartWith, EndsWith, DoesNotEndWith, Is, IsNot]

  /** The name the filter is registered under (and called by). */
  function Name(op: Operator): string
  {
    match op
    case Contains => "contains"
    case DoesNotContain => "does_not_contain"
    case StartsWith => "starts_with"
    case DoesNotStartWith => "does_not_start_with"
    case EndsWith => "ends_with"
    case DoesNotEndWith => "does_not_end_with"
    case Is => "is"
    case IsNot => "is_not"
  }

  function TableRow(op: Operator): Row
  {
    match op
    case Contains => Row("LIKE", Some(Anywhere))
    case DoesNotContain => Row("NOT LIKE", Some(Anywhere))
    case StartsWith => Row("LIKE", Some(Leading))
    case DoesNotStartWith => Row("NOT LIKE", Some(Leading))
    case EndsWith => Row("LIKE", Some(Trailing))
    case DoesNotEndWith => Row("NOT LIKE", Some(Trailing))
    case Is => Row("=", None)
    case IsNot => Row("<>", None)
  }

  /** Finds the filter registered under `name`. */
  function Lookup(name: string): (r: Option<Operator>)
    ensures r.Some? ==> Name(r.value) == name
  {
    if name == "contains" then Some(Contains)
    else if name == "does_not_contain" then Some(DoesNotContain)
    else if name == "starts_with" then Some(StartsWith)
    else if name == "does_not_start_with" then Some(DoesNotStartWith)
    else if name == "ends_with" then Some(EndsWith)
    else if name == "does_not_end_with" then Some(DoesNotEndWith)
    else if name == "is" then Some(Is)
    else if name == "is_not" then Some(IsNot)
    else None
  }

  /** Each filter is found under its own name, so the names are pairwise
      distinct: the table has exactly eight entries. */
  lemma LookupName(op: Operator)
    ensures Lookup(Name(op)) == Some(op)
  {
  }

  lemma TableHasEightEntries()
    ensures |AllOperators| == 8
    ensures forall op: Operator :: op in AllOperators
    ensures forall i, j :: 0 <= i < j < 8 ==> Name(AllOperators[i]) != Name(AllOperators[j])
  {
    forall op: Operator ensures op in AllOperators {
      var i := match op
        case Contains => 0 case DoesNotContain => 1
        case StartsWith => 2 case DoesNotStartWith => 3
        case EndsWith => 4 case DoesNotEndWith => 5
        case Is => 6 case IsNot => 7;
      assert AllOperators[i] == op;
    }
    forall i, j | 0 <= i < j < 8 ensures Name(AllOperators[i]) != Name(AllOperators[j]) {
      LookupName(AllOperators[i]);
      LookupName(AllOperators[j]);
    }
  }

  /** No SQL operator of the table contains a placeholder. */
  lemma NoPlaceholderInSql(op: Operator)
    ensures '?' !in TableRow(op).sql
  {
  }

  /** The filter paired with `op` in the table: its negated or un-negated form. */
  function Negation(op: Operator): Operator
  {
    match op
    case Contains => DoesNotContain
    case DoesNotContain => Contains
    case StartsWith => DoesNotStartWith
    case DoesNotStartWith => StartsWith
    case EndsWith => DoesNotEndWith
    case DoesNotEndWith => EndsWith
    case Is => IsNot
    case IsNot => Is
  }

  /** The rows come in pairs that share a format and differ only in the
      comparison: `LIKE`/`NOT LIKE` with a format, `=`/`<>` without one. */
  lemma TablePairs(op: Operator)
    ensures Negation(Negation(op)) == op && Negation(op) != op
    ensures TableRow(Negation(op)).format == TableRow(op).format
    ensures TableRow(op).format.Some? <==> TableRow(op).sql in {"LIKE", "NOT LIKE"}
    ensures TableRow(op).format.None? <==> TableRow(op).sql in {"=", "<>"}
    ensures TableRow(op).sql == "LIKE" <==> TableRow(Negation(op)).sql == "NOT LIKE"
    ensures TableRow(op).sql == "=" <==> TableRow(Negation(op)).sql == "<>"
  {
  }

  lemma TableFormats()
    ensures TableRow(Contains).format == TableRow(DoesNotContain).format == Some(Anywhere)
    ensures TableRow(StartsWith).format == TableRow(DoesNotStartWith).format == Some(Leading)
    ensures TableRow(EndsWith).format == TableRow(DoesNotEndWith).format == Some(Trailing)
    ensures TableRow(Is) == Row("=", None) && TableRow(IsNot) == Row("<>", None)
  {
  }
}
