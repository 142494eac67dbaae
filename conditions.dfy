/**
 * The condition compiler of the has_filter plugin: `filter_condition`, which
 * every table filter calls, and the `contains_all_of` scope. A compiled
 * condition is the `:conditions` array of a named scope: an SQL fragment with
 * `?` placeholders followed by the values bound to them.
 */
module Conditions {
  import opened Wrappers
  import opened Text
  import opened Operators

  /** A filter value as callers pass it: one string or a list of strings. */
  datatype Value = Scalar(s: string) | List(items: seq<string>)

  /** `Array(value)` in Ruby 1.8: a list is itself; a String is `s.to_a`,
      its lines, so the empty String is the empty list. */
  function AsList(v: Value): (r: seq<string>)
    ensures v.Scalar? ==> Concat(r) == v.s
    ensures v.List? ==> r == v.items
  {
    match v
    case Scalar(s) => LinesGlue(s); Lines(s)
    case List(xs) => xs
  }

  /** An SQL fragment with positional `?` placeholders and the bound values. */
  datatype Condition = Condition(query: string, binds: seq<string>)

  /** Two conditions joined by `sep`; a condition without values adds nothing. */
  function Combine(a: Condition, b: Condition, sep: string): Condition
  {
    if a.binds == [] then b
    else if b.binds == [] then a
    else Condition(a.query + sep + b.query, a.binds + b.binds)
  }

  function Formatted(format: Option<Format>, v: string): string
  {
    match format
    case None => v
    case Some(f) => Wrap(f, v)
  }

  /** One comparison of `filter_condition`. */
  function Clause(column: string, operator: string): string
  {
    "lower(" + column + ") " + operator + " ?"
  }

  /** `filter_condition(column, value, operator, format)`: one clause per value,
      joined by ` OR `; each value is formatted, then lower-cased. */
  function FilterCondition(column: string, value: Value, operator: string, format: Option<Format>): (c: Condition)
    ensures |c.binds| == |AsList(value)|
  {
    var values := AsList(value);
    Condition(
      Join(Copies(Clause(column, operator), |values|), " OR "),
      seq(|values|, i requires 0 <= i < |values| => Downcase(Formatted(format, values[i]))))
  }

  /** The tokens `contains_all_of` binds: a String is split on white space,
      a list is taken as it is. */
  function Tokens(value: Value): seq<string>
  {
    match value
    case Scalar(s) => Words(s)
    case List(xs) => xs
  }

  /** Every value surrounded by `%`: what `map!` leaves in the array. */
  function Surrounded(xs: seq<string>): (r: seq<string>)
    ensures |r| == |xs|
  {
    seq(|xs|, i requires 0 <= i < |xs| => Wrap(Anywhere, xs[i]))
  }

  /** The `:conditions` of `contains_all_of(column, values)`: one
      `column LIKE ?` per token, joined by ` AND `. */
  function ContainsAllCondition(column: string, value: Value): (c: Condition)
    ensures |c.binds| == |Tokens(value)|
  {
    var tokens := Tokens(value);
    Condition(Join(Copies(column + " LIKE ?", |tokens|), " AND "), Surrounded(tokens))
  }

  // ---------------------------------------------------------------------
  // placeholders

  lemma {:induction false} CountAbsent(c: char, s: string)
    requires c !in s
    ensures Count(c, s) == 0
  {
    if |s| > 0 {
      assert s[0] in s;
      assert forall x :: x in s[1..] ==> x in s;
      CountAbsent(c, s[1..]);
    }
  }

  lemma ClausePlaceholders(column: string, operator: string)
    ensures Count('?', Clause(column, operator)) == 1 + Count('?', column) + Count('?', operator)
  {
    CountAbsent('?', "lower(");
    CountAbsent('?', ") ");
    CountAbsent('?', " ");
    CountConcat('?', "lower(", column);
    CountConcat('?', "lower(" + column, ") ");
    CountConcat('?', "lower(" + column + ") ", operator);
    CountConcat('?', "lower(" + column + ") " + operator, " ?");
    CountConcat('?', " ", "?");
    assert " ?" == " " + "?";
  }

  /** Every value gets its own clause: the query holds one placeholder per
      bound value, plus whatever `?` the column name and operator bring in. */
  lemma FilterConditionPlaceholders(column: string, value: Value, operator: string, format: Option<Format>)
    ensures var c := FilterCondition(column, value, operator, format);
      Count('?', c.query) == |c.binds| * (1 + Count('?', column) + Count('?', operator))
  {
    var n := |AsList(value)|;
    CountJoinCopies('?', Clause(column, operator), n, " OR ");
    CountAbsent('?', " OR ");
    ClausePlaceholders(column, operator);
    var k := Count('?', Clause(column, operator));
    assert (if n == 0 then 0 else (n - 1) * 0) == 0;
  }

  /** With a plain column name and a table operator the placeholder count is
      the number of values. */
  lemma PlaceholdersMatchValues(column: string, value: Value, op: Operator)
    requires '?' !in column
    ensures var c := FilterCondition(column, value, TableRow(op).sql, TableRow(op).format);
      Count('?', c.query) == |c.binds| == |AsList(value)|
  {
    var row := TableRow(op);
    NoPlaceholderInSql(op);
    CountAbsent('?', column);
    CountAbsent('?', row.sql);
    FilterConditionPlaceholders(column, value, row.sql, row.format);
    var c := FilterCondition(column, value, row.sql, row.format);
    var n := |c.binds|;
    assert Count('?', c.query) == n * (1 + 0 + 0);
  }

  /** An empty list compiles to an empty query with nothing bound. */
  lemma EmptyValueList(column: string, value: Value, operator: string, format: Option<Format>)
    requires AsList(value) == []
    ensures FilterCondition(column, value, operator, format) == Condition("", [])
  {
  }

  lemma DowncaseWrap(f: Format, v: string)
    ensures Downcase(Wrap(f, v)) == Wrap(f, Downcase(v))
  {
    match f
    case Anywhere =>
      DowncaseConcat("%" + v, "%");
      DowncaseConcat("%", v);
    case Leading => DowncaseConcat(v, "%");
    case Trailing => DowncaseConcat("%", v);
  }

  /** The i-th bound value is the i-th input value, lower-cased and wrapped
      in the operator's format; lower-casing it again changes nothing, and
      unwrapping it gives back the lower-cased value. */
  lemma FilterConditionBinds(column: string, value: Value, operator: string, format: Option<Format>, i: int)
    requires 0 <= i < |AsList(value)|
    ensures var c := FilterCondition(column, value, operator, format);
      && c.binds[i] == Formatted(format, Downcase(AsList(value)[i]))
      && Downcase(c.binds[i]) == c.binds[i]
      && (format.Some? ==> Unwrap(format.value, c.binds[i]) == Some(Downcase(AsList(value)[i])))
  {
    var v := AsList(value)[i];
    if format.Some? {
      DowncaseWrap(format.value, v);
      UnwrapWrap(format.value, Downcase(v));
    }
    DowncaseIdempotent(Formatted(format, v));
  }

  /** A list of values is the disjunction of its parts. */
  lemma {:induction false} FilterConditionDisjunction(column: string, xs: seq<string>, ys: seq<string>, operator: string, format: Option<Format>)
    ensures FilterCondition(column, List(xs + ys), operator, format)
         == Combine(FilterCondition(column, List(xs), operator, format),
                    FilterCondition(column, List(ys), operator, format), " OR ")
  {
    var clause := Clause(column, operator);
    if |xs| == 0 {
      assert xs + ys == ys;
    } else if |ys| == 0 {
      assert xs + ys == xs;
    } else {
      var a := FilterCondition(column, List(xs), operator, format);
      var b := FilterCondition(column, List(ys), operator, format);
      var c := FilterCondition(column, List(xs + ys), operator, format);
      CopiesAppend(clause, |xs|, |ys|);
      JoinAppend(Copies(clause, |xs|), Copies(clause, |ys|), " OR ");
      assert c.query == a.query + " OR " + b.query;
      assert c.binds == a.binds + b.binds by {
        forall i | 0 <= i < |c.binds| ensures c.binds[i] == (a.binds + b.binds)[i] {
          assert c.binds[i] == Downcase(Formatted(format, (xs + ys)[i]));
        }
      }
      assert a.binds != [] && b.binds != [];
    }
  }

  /** One value gives one `lower(column) op ?` clause, whatever the value,
      bound to the value formatted and lower-cased. */
  lemma FilterConditionOne(column: string, v: string, operator: string, format: Option<Format>)
    ensures FilterCondition(column, List([v]), operator, format)
         == Condition(Clause(column, operator), [Downcase(Formatted(format, v))])
  {
  }

  /** A String is filtered as the list of its lines: a one-line String is
      one `lower(column) op ?` clause, a multi-line one the ` OR ` of one
      clause per line, and the empty String no clause at all. */
  lemma ScalarIsItsLines(column: string, v: string, operator: string, format: Option<Format>)
    ensures FilterCondition(column, Scalar(v), operator, format)
         == FilterCondition(column, List(Lines(v)), operator, format)
    ensures v != "" && '\n' !in v ==>
      FilterCondition(column, Scalar(v), operator, format) == Condition(Clause(column, operator), [Downcase(Formatted(format, v))])
    ensures FilterCondition(column, Scalar(""), operator, format) == Condition("", [])
  {
    if v != "" && '\n' !in v {
      LinesOfLine(v, "");
    }
    LinesOfLine("", "");
  }

  // ---------------------------------------------------------------------
  // contains_all_of

  lemma LikeClausePlaceholders(column: string)
    ensures Count('?', column + " LIKE ?") == 1 + Count('?', column)
  {
    CountAbsent('?', " LIKE ");
    CountConcat('?', column, " LIKE ?");
    CountConcat('?', " LIKE ", "?");
    assert " LIKE ?" == " LIKE " + "?";
  }

  /** One `column LIKE ?` per token, each with its own placeholder. */
  lemma ContainsAllPlaceholders(column: string, value: Value)
    ensures var c := ContainsAllCondition(column, value);
      Count('?', c.query) == |c.binds| * (1 + Count('?', column))
  {
    var c := ContainsAllCondition(column, value);
    var n := |c.binds|;
    var clause := column + " LIKE ?";
    assert c.query == Join(Copies(clause, n), " AND ");
    CountJoinCopies('?', clause, n, " AND ");
    CountAbsent('?', " AND ");
    LikeClausePlaceholders(column);
    assert Count('?', c.query) == n * Count('?', clause) + (if n == 0 then 0 else (n - 1) * 0);
  }

  /** Each token gets the clause `column LIKE ?` on the bare column, with no
      `lower()`, bound to `%token%`; no token gives no clause. */
  lemma ContainsAllClauses(column: string, v: string)
    ensures ContainsAllCondition(column, List([v])) == Condition(column + " LIKE ?", ["%" + v + "%"])
    ensures ContainsAllCondition(column, List([])) == Condition("", [])
  {
  }

  /** Two words separated by a space, such as `contains_all_of(:tags, "red blue")`:
      `tags LIKE ? AND tags LIKE ?`, binding `%red%` and `%blue%`. */
  lemma TwoWords(column: string, w1: string, w2: string)
    requires IsWord(w1) && IsWord(w2)
    ensures ContainsAllCondition(column, Scalar(w1 + " " + w2))
         == Condition(column + " LIKE ? AND " + column + " LIKE ?", ["%" + w1 + "%", "%" + w2 + "%"])
  {
    WordsOfWordThenSpace(w1, " ", w2);
    WordsOfWordThenSpace(w2, " ", "");
    assert Words(w1 + " " + w2) == [w1] + [w2];
    ContainsAllConjunction(column, [w1], [w2]);
    ContainsAllClauses(column, w1);
    ContainsAllClauses(column, w2);
    var clause := column + " LIKE ?";
    assert clause + " AND " + clause == column + " LIKE ? AND " + column + " LIKE ?";
  }

  /** The tokens are bound as they are, surrounded by `%`: unlike
      `filter_condition`, nothing is lower-cased. */
  lemma ContainsAllBinds(column: string, value: Value, i: int)
    requires 0 <= i < |Tokens(value)|
    ensures Unwrap(Anywhere, ContainsAllCondition(column, value).binds[i]) == Some(Tokens(value)[i])
  {
    UnwrapWrap(Anywhere, Tokens(value)[i]);
  }

  /** A String is split into words that together hold all of its
      non-space characters. */
  lemma ContainsAllOfString(column: string, s: string)
    ensures AllWords(Tokens(Scalar(s)))
    ensures Concat(Tokens(Scalar(s))) == NonSpace(s)
    ensures ContainsAllCondition(column, Scalar(s)) == ContainsAllCondition(column, List(Words(s)))
  {
    WordsAreWords(s);
    WordsKeepNonSpace(s);
  }

  /** Passing words joined by spaces is the same as passing the words. */
  lemma ContainsAllOfJoinedWords(column: string, ws: seq<string>)
    requires AllWords(ws)
    ensures ContainsAllCondition(column, Scalar(Join(ws, " "))) == ContainsAllCondition(column, List(ws))
  {
    WordsOfJoin(ws);
  }

  /** A list of tokens is the conjunction of its parts. */
  lemma {:induction false} ContainsAllConjunction(column: string, xs: seq<string>, ys: seq<string>)
    ensures ContainsAllCondition(column, List(xs + ys))
         == Combine(ContainsAllCondition(column, List(xs)), ContainsAllCondition(column, List(ys)), " AND ")
  {
    var clause := column + " LIKE ?";
    if |xs| == 0 {
      assert xs + ys == ys;
    } else if |ys| == 0 {
      assert xs + ys == xs;
    } else {
      var a, b := ContainsAllCondition(column, List(xs)), ContainsAllCondition(column, List(ys));
      var c := ContainsAllCondition(column, List(xs + ys));
      CopiesAppend(clause, |xs|, |ys|);
      JoinAppend(Copies(clause, |xs|), Copies(clause, |ys|), " AND ");
      assert c.query == a.query + " AND " + b.query;
      assert c.binds == a.binds + b.binds by {
        assert Surrounded(xs + ys) == Surrounded(xs) + Surrounded(ys);
      }
      assert a.binds != [] && b.binds != [];
    }
  }

  /** The two compilers treat case differently: a token holding an upper-case
      letter is bound as it is by `contains_all_of` but lower-cased by
      `contains`. */
  lemma CaseAsymmetry(column: string, v: string, k: int)
    requires 0 <= k < |v| && IsUpper(v[k])
    ensures ContainsAllCondition(column, List([v])).binds == [Wrap(Anywhere, v)]
    ensures FilterCondition(column, List([v]), "LIKE", Some(Anywhere)).binds == [Wrap(Anywhere, Downcase(v))]
    ensures Wrap(Anywhere, v) != Wrap(Anywhere, Downcase(v))
  {
    DowncaseWrap(Anywhere, v);
    assert Wrap(Anywhere, v)[k + 1] == v[k];
    assert Wrap(Anywhere, Downcase(v))[k + 1] == Downcase(v)[k];
  }

  // ---------------------------------------------------------------------
  // contains_all_of as the source runs it: the values array is rewritten in place

  /** The argument of `contains_all_of`: a String, or an array the caller owns. */
  datatype Values = Str(s: string) | Arr(a: array<string>)

  /** `map!` over the array: each element is surrounded by `%`, in place. */
  method SurroundEach(a: array<string>)
    modifies a
    ensures a[..] == Surrounded(old(a[..]))
  {
    var i := 0;
    while i < a.Length
      invariant 0 <= i <= a.Length
      invariant forall k :: 0 <= k < i ==> a[k] == Wrap(Anywhere, old(a[k]))
      invariant forall k :: i <= k < a.Length ==> a[k] == old(a[k])
    {
      a[i] := "%" + a[i] + "%";
      i := i + 1;
    }
  }

  /** The `contains_all_of` scope body. An array argument is rewritten in
      place and afterwards holds the bound values. */
  method ContainsAllOf(column: string, values: Values) returns (c: Condition)
    modifies if values.Arr? then {values.a} else {}
    ensures c == ContainsAllCondition(column, if values.Arr? then List(old(values.a[..])) else Scalar(values.s))
    ensures values.Arr? ==> values.a[..] == c.binds
  {
    var items: array<string>;
    if values.Str? {
      var ws := Words(values.s);
      items := new string[|ws|](i requires 0 <= i < |ws| => ws[i]);
      assert items[..] == ws;
    } else {
      items := values.a;
    }
    SurroundEach(items);
    c := Condition(Join(Copies(column + " LIKE ?", items.Length), " AND "), items[..]);
  }
}
