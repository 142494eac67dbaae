/**
 * `filter_by`: the entry point of the has_filter plugin. A single criterion
 * `(operator, column, value)` is guarded and then dispatched to the named
 * scope of that operator; a list of criteria is folded left, chaining each
 * criterion's scope onto the accumulator.
 */
module Composer {
  import opened Wrappers
  import opened Operators
  import opened Conditions
  import opened AttributeGuard
  import Text

  /** One criterion, in the order `send(*criteria)` uses it: the name of the
      scope, the column, the value. */
  datatype Criterion = Criterion(operator: string, column: string, value: Value)

  /** The arguments of `filter_by`: one flat criterion, or a list whose
      entries are arrays (themselves `filter_by` arguments) or `nil`. */
  datatype Criteria = Single(criterion: Criterion) | Many(entries: seq<Option<Criteria>>)

  /** A chain of named scopes: the options of the scopes it was chained onto,
      oldest first, and its own `proxy_options`. */
  datatype Scope = Scope(earlier: seq<Option<Condition>>, proxyOptions: Option<Condition>)

  /** `scoped({})`: no restriction. */
  const Unrestricted := Scope([], None)

  /** `scope.scoped(options)` */
  function Chain(s: Scope, options: Option<Condition>): Scope
  {
    Scope(s.earlier + [s.proxyOptions], options)
  }

  function Present(os: seq<Option<Condition>>): seq<Condition>
  {
    if |os| == 0 then []
    else (if os[0].Some? then [os[0].value] else []) + Present(os[1..])
  }

  /** The conditions a scope imposes; a row must satisfy all of them. */
  function Restrictions(s: Scope): seq<Condition>
  {
    Present(s.earlier + [s.proxyOptions])
  }

  datatype FilterError =
    | IllegalAttributeAccess(attribute: string)   // raised by the guard
    | UndefinedScope(name: string)                // `send` to a name that is no filter
    | NoMethodOnNil                               // a method called on `nil`

  /** What `filter_by` does: returns a scope, returns `nil`, or raises. */
  datatype Filtered = Scoped(scope: Scope) | Nil | Raised(error: FilterError)

  /** `send(operator, column, value)` restricted to the nine filter scopes. */
  function NamedScope(name: string, column: string, value: Value): (r: Result<Condition, FilterError>)
    ensures r.Failure? <==> name != "contains_all_of" && Lookup(name).None?
  {
    if name == "contains_all_of" then
      Success(ContainsAllCondition(column, value))
    else
      match Lookup(name)
      case Some(op) => Success(FilterCondition(column, value, TableRow(op).sql, TableRow(op).format))
      case None => Failure(UndefinedScope(name))
  }

  /** One flat criterion: guard the column, then dispatch. */
  function Compile(setup: FilterSetup, c: Criterion): (r: Result<Condition, FilterError>)
    ensures r.Failure? && r.error.IllegalAttributeAccess? <==> Forbidden(setup, c.column)
    ensures r.Failure? && r.error.IllegalAttributeAccess? ==> r.error.attribute == c.column
  {
    match GuardAttributeAccess(setup, c.column)
    case Some(e) => Failure(IllegalAttributeAccess(e.attribute))
    case None => NamedScope(c.operator, c.column, c.value)
  }

  /** What a `nil` entry of a criteria list does. */
  datatype NilEntry =
    | YieldsNil   // the block's value, and so the accumulator, becomes nil
    | Skipped     // the accumulator is kept

  function Evaluate(policy: NilEntry, setup: FilterSetup, criteria: Criteria): (r: Filtered)
    ensures r.Raised? && r.error.IllegalAttributeAccess? ==> Forbidden(setup, r.error.attribute)
    ensures policy == Skipped ==> !r.Nil? && r != Raised(NoMethodOnNil)
    decreases criteria, 1, 0
  {
    match criteria
    case Single(c) =>
      (match Compile(setup, c)
       case Failure(e) => Raised(e)
       case Success(cond) => Scoped(Scope([], Some(cond))))
    case Many(entries) =>
      if |entries| > 0 && entries[0].Some? then Inject(policy, setup, criteria, |entries|)
      else Scoped(Unrestricted)
  }

  /** The left fold of `filter_by`'s list form over the first `k` entries,
      starting from the unrestricted scope. */
  function Inject(policy: NilEntry, setup: FilterSetup, criteria: Criteria, k: nat): (r: Filtered)
    requires criteria.Many? && k <= |criteria.entries|
    ensures r.Raised? && r.error.IllegalAttributeAccess? ==> Forbidden(setup, r.error.attribute)
    ensures policy == Skipped ==> !r.Nil? && r != Raised(NoMethodOnNil)
    decreases criteria, 0, k
  {
    if k == 0 then Scoped(Unrestricted)
    else
      var acc := Inject(policy, setup, criteria, k - 1);
      var entry := criteria.entries[k - 1];
      if acc.Raised? then acc
      else if entry.None? then (if policy == Skipped then acc else Nil)
      else
        assert entry in criteria.entries;
        match Evaluate(policy, setup, entry.value)
        case Raised(e) => Raised(e)
        case Nil => Raised(NoMethodOnNil)
        case Scoped(inner) =>
          if acc.Nil? then Raised(NoMethodOnNil) else Scoped(Chain(acc.scope, inner.proxyOptions))
  }

  /** `filter_by(*criteria)` as the plugin has it. */
  function FilterBy(setup: FilterSetup, criteria: Criteria): (r: Filtered)
    ensures r.Raised? && r.error.IllegalAttributeAccess? ==> Forbidden(setup, r.error.attribute)
  {
    Evaluate(YieldsNil, setup, criteria)
  }

  /** `filter_by` with `nil` entries of a list skipped, as the `if criterion`
      modifier intends. */
  function FilterBySkippingNil(setup: FilterSetup, criteria: Criteria): (r: Filtered)
    ensures r.Raised? && r.error.IllegalAttributeAccess? ==> Forbidden(setup, r.error.attribute)
    ensures !r.Nil? && r != Raised(NoMethodOnNil)
  {
    Evaluate(Skipped, setup, criteria)
  }

  // ---------------------------------------------------------------------
  // A reference definition of a list of flat criteria

  function Listed(cs: seq<Criterion>): seq<Option<Criteria>>
  {
    seq(|cs|, i requires 0 <= i < |cs| => Some(Single(cs[i])))
  }

  /** Every criterion compiled in order; the first failure is the result. */
  function CompileAll(setup: FilterSetup, cs: seq<Criterion>): (r: Result<seq<Condition>, FilterError>)
    ensures r.Success? <==> forall i :: 0 <= i < |cs| ==> Compile(setup, cs[i]).Success?
    ensures r.Success? ==> |r.value| == |cs|
    ensures r.Success? ==> forall i :: 0 <= i < |cs| ==> Compile(setup, cs[i]) == Success(r.value[i])
  {
    if |cs| == 0 then Success([])
    else
      var init := cs[..|cs| - 1];
      assert forall i :: 0 <= i < |init| ==> init[i] == cs[i];
      match CompileAll(setup, init)
      case Failure(e) => Failure(e)
      case Success(conds) =>
        match Compile(setup, cs[|cs| - 1])
        case Failure(e) => Failure(e)
        case Success(c) => Success(conds + [c])
  }

  /** A failing list fails with the error of its first failing criterion. */
  lemma {:induction false} CompileAllFirstFailure(setup: FilterSetup, cs: seq<Criterion>) returns (j: int)
    requires CompileAll(setup, cs).Failure?
    ensures 0 <= j < |cs|
    ensures Compile(setup, cs[j]) == Failure(CompileAll(setup, cs).error)
    ensures forall i :: 0 <= i < j ==> Compile(setup, cs[i]).Success?
  {
    var init := cs[..|cs| - 1];
    if CompileAll(setup, init).Failure? {
      j := CompileAllFirstFailure(setup, init);
      assert cs[j] == init[j];
      assert forall i :: 0 <= i < j ==> cs[i] == init[i];
    } else {
      j := |cs| - 1;
      assert forall i :: 0 <= i < j ==> cs[i] == init[i];
    }
  }

  // ---------------------------------------------------------------------
  // Scopes

  lemma {:induction false} PresentAppend(xs: seq<Option<Condition>>, ys: seq<Option<Condition>>)
    ensures Present(xs + ys) == Present(xs) + Present(ys)
  {
    if |xs| == 0 {
      assert xs + ys == ys;
    } else {
      var head := if xs[0].Some? then [xs[0].value] else [];
      assert (xs + ys)[0] == xs[0];
      assert (xs + ys)[1..] == xs[1..] + ys;
      assert Present(xs + ys) == head + Present(xs[1..] + ys);
      PresentAppend(xs[1..], ys);
      assert Present(xs) == head + Present(xs[1..]);
    }
  }

  lemma RestrictionsOfOne(o: Option<Condition>)
    ensures Restrictions(Scope([], o)) == if o.Some? then [o.value] else []
  {
    var os: seq<Option<Condition>> := [o];
    assert Scope([], o).earlier + [Scope([], o).proxyOptions] == os;
    assert os[1..] == [];
    assert Present(os) == (if o.Some? then [o.value] else []) + Present([]);
  }

  /** Chaining a scope adds its options to the conjunction. */
  lemma ChainRestricts(s: Scope, c: Condition)
    ensures Restrictions(Chain(s, Some(c))) == Restrictions(s) + [c]
    ensures Restrictions(Chain(s, None)) == Restrictions(s)
  {
    var os := s.earlier + [s.proxyOptions];
    PresentAppend(os, [Some(c)]);
    PresentAppend(os, [None]);
  }

  // ---------------------------------------------------------------------
  // The flat form

  /** No criteria, or a `nil` first one, give the unrestricted scope. */
  lemma NoCriteria(setup: FilterSetup, entries: seq<Option<Criteria>>)
    requires |entries| == 0 || entries[0].None?
    ensures FilterBy(setup, Many(entries)) == Scoped(Unrestricted)
    ensures Restrictions(Unrestricted) == []
  {
    RestrictionsOfOne(None);
  }

  /** The guard runs before dispatch: a criterion raises the access error
      exactly when its column is a real column missing from the whitelist;
      a name that is no column never does. */
  lemma SingleIsGuarded(setup: FilterSetup, c: Criterion)
    ensures FilterBy(setup, Single(c)) == Raised(IllegalAttributeAccess(c.column))
        <==> c.column in setup.columnNames && Sym(c.column) !in setup.filterableAttributes
    ensures c.column !in setup.columnNames ==> !FilterBy(setup, Single(c)).Raised? || FilterBy(setup, Single(c)).error.UndefinedScope?
  {
  }

  /** A permitted criterion naming no filter raises; one naming a filter
      gives a scope with exactly that filter's condition. */
  lemma SingleDispatches(setup: FilterSetup, c: Criterion)
    requires !Forbidden(setup, c.column)
    ensures c.operator != "contains_all_of" && Lookup(c.operator).None?
        <==> FilterBy(setup, Single(c)) == Raised(UndefinedScope(c.operator))
    ensures c.operator == "contains_all_of" ==>
      FilterBy(setup, Single(c)).Scoped?
      && Restrictions(FilterBy(setup, Single(c)).scope) == [ContainsAllCondition(c.column, c.value)]
    ensures Lookup(c.operator).Some? ==>
      var row := TableRow(Lookup(c.operator).value);
      FilterBy(setup, Single(c)).Scoped?
      && Restrictions(FilterBy(setup, Single(c)).scope) == [FilterCondition(c.column, c.value, row.sql, row.format)]
  {
    assert Lookup("contains_all_of").None?;
    if NamedScope(c.operator, c.column, c.value).Success? {
      RestrictionsOfOne(Some(NamedScope(c.operator, c.column, c.value).value));
    }
  }

  /** A compiled criterion binds one value per placeholder: one per listed
      value for the table filters, one per word for `contains_all_of`. */
  lemma SinglePlaceholders(setup: FilterSetup, c: Criterion)
    requires '?' !in c.column
    requires FilterBy(setup, Single(c)).Scoped?
    ensures var conds := Restrictions(FilterBy(setup, Single(c)).scope);
      && |conds| == 1
      && Text.Count('?', conds[0].query) == |conds[0].binds|
      && |conds[0].binds| == (if c.operator == "contains_all_of" then |Tokens(c.value)| else |AsList(c.value)|)
  {
    Conditions.CountAbsent('?', c.column);
    SingleDispatches(setup, c);
    if c.operator == "contains_all_of" {
      ContainsAllPlaceholders(c.column, c.value);
    } else {
      PlaceholdersMatchValues(c.column, c.value, Lookup(c.operator).value);
    }
  }

  // ---------------------------------------------------------------------
  // The list form

  lemma {:induction false} InjectListed(policy: NilEntry, setup: FilterSetup, cs: seq<Criterion>, k: nat)
    requires k <= |cs|
    ensures var r := Inject(policy, setup, Many(Listed(cs)), k);
      match CompileAll(setup, cs[..k])
      case Failure(e) => r == Raised(e)
      case Success(conds) => r.Scoped? && Restrictions(r.scope) == conds
  {
    if k == 0 {
      RestrictionsOfOne(None);
    } else {
      InjectListed(policy, setup, cs, k - 1);
      var prefix := cs[..k];
      assert prefix[..k - 1] == cs[..k - 1];
      assert prefix[k - 1] == cs[k - 1];
      var entry := Listed(cs)[k - 1];
      assert entry == Some(Single(cs[k - 1]));
      var acc := Inject(policy, setup, Many(Listed(cs)), k - 1);
      var r := Inject(policy, setup, Many(Listed(cs)), k);
      match Compile(setup, cs[k - 1])
      case Failure(e) =>
        assert Evaluate(policy, setup, entry.value) == Raised(e);
      case Success(cond) =>
        assert Evaluate(policy, setup, entry.value) == Scoped(Scope([], Some(cond)));
        if acc.Scoped? {
          assert r == Scoped(Chain(acc.scope, Some(cond)));
          ChainRestricts(acc.scope, cond);
        }
    }
  }

  lemma {:induction false} InjectWithoutNil(setup: FilterSetup, cs: seq<Criterion>, k: nat)
    requires k <= |cs|
    ensures Inject(YieldsNil, setup, Many(Listed(cs)), k) == Inject(Skipped, setup, Many(Listed(cs)), k)
  {
    if k > 0 {
      InjectWithoutNil(setup, cs, k - 1);
      assert Listed(cs)[k - 1] == Some(Single(cs[k - 1]));
    }
  }

  /** A list of flat criteria is guarded and compiled criterion by
      criterion, in order: it raises the first failure, or yields the
      conjunction of every criterion's condition. `nil` entries aside, both
      readings of `nil` agree. */
  lemma ListOfCriteria(setup: FilterSetup, cs: seq<Criterion>)
    ensures FilterBy(setup, Many(Listed(cs))) == FilterBySkippingNil(setup, Many(Listed(cs)))
    ensures var r := FilterBy(setup, Many(Listed(cs)));
      match CompileAll(setup, cs)
      case Failure(e) => r == Raised(e)
      case Success(conds) => r.Scoped? && Restrictions(r.scope) == conds
  {
    assert cs[..|cs|] == cs;
    if |cs| == 0 {
      RestrictionsOfOne(None);
    } else {
      InjectListed(YieldsNil, setup, cs, |cs|);
      InjectWithoutNil(setup, cs, |cs|);
    }
  }

  /** Every criterion of a list is guarded: one forbidden column makes the
      whole list raise, with the error of the first criterion that fails. */
  lemma EveryCriterionGuarded(setup: FilterSetup, cs: seq<Criterion>, i: int)
    requires 0 <= i < |cs| && Forbidden(setup, cs[i].column)
    ensures FilterBy(setup, Many(Listed(cs))).Raised?
    ensures exists j :: 0 <= j <= i && Compile(setup, cs[j]) == Failure(FilterBy(setup, Many(Listed(cs))).error)
  {
    ListOfCriteria(setup, cs);
    var j := CompileAllFirstFailure(setup, cs);
    assert Compile(setup, cs[i]).Failure?;
  }

  lemma {:induction false} CompileAllAppend(setup: FilterSetup, xs: seq<Criterion>, ys: seq<Criterion>)
    ensures var r, rx, ry := CompileAll(setup, xs + ys), CompileAll(setup, xs), CompileAll(setup, ys);
      && (r.Success? <==> rx.Success? && ry.Success?)
      && (r.Success? ==> r.value == rx.value + ry.value)
    decreases |ys|
  {
    if |ys| == 0 {
      assert xs + ys == xs;
    } else {
      var init, last := ys[..|ys| - 1], ys[|ys| - 1];
      var zs := xs + ys;
      assert zs[..|zs| - 1] == xs + init;
      assert zs[|zs| - 1] == last;
      CompileAllAppend(setup, xs, init);
      var r, rInit := CompileAll(setup, zs), CompileAll(setup, xs + init);
      var rx, ry, ryInit := CompileAll(setup, xs), CompileAll(setup, ys), CompileAll(setup, init);
      if rInit.Success? && Compile(setup, last).Success? {
        var c := Compile(setup, last).value;
        assert r.value == rInit.value + [c];
        assert ry.value == ryInit.value + [c];
        assert rInit.value == rx.value + ryInit.value;
      }
    }
  }

  /** Filtering by `xs + ys` is filtering by `xs` and by `ys` and taking the
      conjunction. */
  lemma ListIsConjunction(setup: FilterSetup, xs: seq<Criterion>, ys: seq<Criterion>)
    ensures var r, rx, ry := FilterBy(setup, Many(Listed(xs + ys))), FilterBy(setup, Many(Listed(xs))), FilterBy(setup, Many(Listed(ys)));
      && (r.Scoped? <==> rx.Scoped? && ry.Scoped?)
      && (r.Scoped? ==> Restrictions(r.scope) == Restrictions(rx.scope) + Restrictions(ry.scope))
  {
    ListOfCriteria(setup, xs + ys);
    ListOfCriteria(setup, xs);
    ListOfCriteria(setup, ys);
    CompileAllAppend(setup, xs, ys);
  }

  /** An inner list contributes only the condition of its last criterion:
      the outer fold chains the inner result's `proxy_options`, which hold
      only what the inner fold's last step added. */
  lemma InnerListKeepsLastCondition(setup: FilterSetup, c1: Criterion, c2: Criterion)
    requires Compile(setup, c1).Success? && Compile(setup, c2).Success?
    ensures var r := FilterBy(setup, Many([Some(Many([Some(Single(c1)), Some(Single(c2))]))]));
      r.Scoped? && Restrictions(r.scope) == [Compile(setup, c2).value]
  {
    var cond1, cond2 := Compile(setup, c1).value, Compile(setup, c2).value;
    var inner := Many([Some(Single(c1)), Some(Single(c2))]);
    var outer := Many([Some(inner)]);
    var first := Chain(Unrestricted, Some(cond1));
    assert Inject(YieldsNil, setup, inner, 1) == Scoped(first);
    assert Inject(YieldsNil, setup, inner, 2) == Scoped(Chain(first, Some(cond2)));
    assert Evaluate(YieldsNil, setup, inner) == Scoped(Chain(first, Some(cond2)));
    assert Inject(YieldsNil, setup, outer, 1) == Scoped(Chain(Unrestricted, Some(cond2)));
    RestrictionsOfOne(None);
    ChainRestricts(Unrestricted, cond2);
  }

  // ---------------------------------------------------------------------
  // nil entries

  /** As written, a `nil` entry is not skipped: the block returns `nil`, so a
      trailing `nil` makes `filter_by` return `nil` and a later criterion
      calls `scoped` on `nil`. */
  lemma NilEntryIsNotSkipped(setup: FilterSetup, c: Criterion)
    requires Compile(setup, c).Success?
    ensures FilterBy(setup, Many([Some(Single(c))])).Scoped?
    ensures FilterBy(setup, Many([Some(Single(c)), None])) == Nil
    ensures FilterBy(setup, Many([Some(Single(c)), None, Some(Single(c))])) == Raised(NoMethodOnNil)
  {
    var one := Scoped(Chain(Unrestricted, Some(Compile(setup, c).value)));
    var single := Many([Some(Single(c))]);
    var pair := Many([Some(Single(c)), None]);
    var triple := Many([Some(Single(c)), None, Some(Single(c))]);
    assert Inject(YieldsNil, setup, single, 1) == one;
    assert Inject(YieldsNil, setup, pair, 1) == one;
    assert Inject(YieldsNil, setup, pair, 2) == Nil;
    assert Inject(YieldsNil, setup, triple, 1) == one;
    assert Inject(YieldsNil, setup, triple, 2) == Nil;
    assert Inject(YieldsNil, setup, triple, 3) == Raised(NoMethodOnNil);
  }

  function ListedWithNil(cs: seq<Option<Criterion>>): seq<Option<Criteria>>
  {
    seq(|cs|, i requires 0 <= i < |cs| => if cs[i].Some? then Some(Single(cs[i].value)) else None)
  }

  /** The criteria of a list with its `nil` entries dropped. */
  function WithoutNil(cs: seq<Option<Criterion>>): seq<Criterion>
  {
    if |cs| == 0 then []
    else WithoutNil(cs[..|cs| - 1]) + (if cs[|cs| - 1].Some? then [cs[|cs| - 1].value] else [])
  }

  /** Under `Skipped`, a `nil` entry leaves the accumulator as it is. */
  lemma InjectSkipsNil(setup: FilterSetup, criteria: Criteria, k: nat)
    requires criteria.Many? && 0 < k <= |criteria.entries| && criteria.entries[k - 1].None?
    ensures Inject(Skipped, setup, criteria, k) == Inject(Skipped, setup, criteria, k - 1)
  {
  }

  /** Under `Skipped`, a flat entry chains its condition onto the
      accumulator, or raises its error. */
  lemma InjectChainsSingle(setup: FilterSetup, criteria: Criteria, k: nat, c: Criterion)
    requires criteria.Many? && 0 < k <= |criteria.entries| && criteria.entries[k - 1] == Some(Single(c))
    ensures var acc, r := Inject(Skipped, setup, criteria, k - 1), Inject(Skipped, setup, criteria, k);
      if acc.Raised? then r == acc
      else match Compile(setup, c)
        case Failure(e) => r == Raised(e)
        case Success(cond) => acc.Scoped? && r == Scoped(Chain(acc.scope, Some(cond)))
  {
    assert criteria.entries[k - 1].value == Single(c);
  }

  lemma {:induction false} InjectSkipping(setup: FilterSetup, cs: seq<Option<Criterion>>, k: nat)
    requires k <= |cs|
    ensures var r := Inject(Skipped, setup, Many(ListedWithNil(cs)), k);
      match CompileAll(setup, WithoutNil(cs[..k]))
      case Failure(e) => r == Raised(e)
      case Success(conds) => r.Scoped? && Restrictions(r.scope) == conds
  {
    if k == 0 {
      RestrictionsOfOne(None);
    } else {
      InjectSkipping(setup, cs, k - 1);
      var criteria := Many(ListedWithNil(cs));
      var prefix := cs[..k];
      assert prefix[..k - 1] == cs[..k - 1];
      assert prefix[k - 1] == cs[k - 1];
      var acc := Inject(Skipped, setup, criteria, k - 1);
      var prev := WithoutNil(cs[..k - 1]);
      if cs[k - 1].Some? {
        var c := cs[k - 1].value;
        assert ListedWithNil(cs)[k - 1] == Some(Single(c));
        InjectChainsSingle(setup, criteria, k, c);
        assert WithoutNil(prefix) == prev + [c];
        assert (prev + [c])[..|prev|] == prev;
        assert (prev + [c])[|prev|] == c;
        if !acc.Raised? && Compile(setup, c).Success? {
          ChainRestricts(acc.scope, Compile(setup, c).value);
        }
      } else {
        assert ListedWithNil(cs)[k - 1] == None;
        InjectSkipsNil(setup, criteria, k);
        assert WithoutNil(prefix) == prev;
      }
    }
  }

  /** With `nil` entries skipped, a list whose first entry is present
      behaves exactly like the same list without its `nil` entries. (A
      leading `nil` gives the unrestricted scope either way: see
      `NoCriteria`.) */
  lemma NilEntriesSkipped(setup: FilterSetup, cs: seq<Option<Criterion>>)
    requires |cs| > 0 && cs[0].Some?
    ensures var r := FilterBySkippingNil(setup, Many(ListedWithNil(cs)));
      match CompileAll(setup, WithoutNil(cs))
      case Failure(e) => r == Raised(e)
      case Success(conds) => r.Scoped? && Restrictions(r.scope) == conds
  {
    assert cs[..|cs|] == cs;
    InjectSkipping(setup, cs, |cs|);
  }

  // ---------------------------------------------------------------------
  // An example

  /** A `Person` with columns `first_name` and `ssn`, of which only
      `first_name` is declared filterable. */
  const Person := FilterSetup({"first_name", "ssn"}, [Sym("first_name")])

  lemma PersonRefusesSsn()
    ensures FilterBy(Person, Single(Criterion("is", "ssn", Scalar("123")))) == Raised(IllegalAttributeAccess("ssn"))
  {
    assert Sym("ssn") != Sym("first_name");
    assert Forbidden(Person, "ssn");
  }

  /** The condition of `starts_with first_name "Jo"`. */
  lemma JoPrefixCondition()
    ensures FilterCondition("first_name", Scalar("Jo"), "LIKE", Some(Leading))
         == Condition("lower(first_name) LIKE ?", ["jo%"])
  {
    var jo := Text.Downcase(Wrap(Leading, "Jo"));
    assert jo == "jo%" by {
      assert Wrap(Leading, "Jo") == "Jo%";
      assert jo[0] == Text.Lower('J') == 'j';
    }
    ScalarIsItsLines("first_name", "Jo", "LIKE", Some(Leading));
    assert Clause("first_name", "LIKE") == "lower(first_name) LIKE ?";
  }

  lemma PersonStartsWith()
    ensures FilterBy(Person, Single(Criterion("starts_with", "first_name", Scalar("Jo"))))
         == Scoped(Scope([], Some(Condition("lower(first_name) LIKE ?", ["jo%"]))))
  {
    var crit := Criterion("starts_with", "first_name", Scalar("Jo"));
    assert !Forbidden(Person, "first_name");
    assert Lookup("starts_with") == Some(StartsWith);
    assert TableRow(StartsWith) == Row("LIKE", Some(Leading));
    JoPrefixCondition();
    assert Compile(Person, crit) == Success(Condition("lower(first_name) LIKE ?", ["jo%"]));
  }

  /** Filtering `Person`: `ssn` is refused, and `starts_with first_name "Jo"`
      compiles to one case-insensitive prefix match. */
  lemma PersonExample()
    ensures FilterBy(Person, Single(Criterion("is", "ssn", Scalar("123")))) == Raised(IllegalAttributeAccess("ssn"))
    ensures FilterBy(Person, Single(Criterion("starts_with", "first_name", Scalar("Jo"))))
         == Scoped(Scope([], Some(Condition("lower(first_name) LIKE ?", ["jo%"]))))
  {
    PersonRefusesSsn();
    PersonStartsWith();
  }
}
