/**
 * The `has_filter` class macro: a record class becomes filterable once, and
 * the first declaration's attributes are its whitelist.
 */
module Registry {
  import opened AttributeGuard
  import opened Composer

  /** A record class as far as filtering is concerned: its schema columns,
      whether `has_filter` has run (`has_filter?`) and its whitelist. */
  class FilterableClass {
    const columnNames: set<string>
    var declared: bool
    var filterableAttributes: seq<Arg>

    ghost predicate Valid()
      reads this
    {
      !declared ==> filterableAttributes == []
    }

    constructor (columnNames: set<string>)
      ensures Valid()
      ensures this.columnNames == columnNames && !declared
    {
      this.columnNames := columnNames;
      declared := false;
      filterableAttributes := [];
    }

    /** `has_filter?`: a class that has not declared filtering has no
        whitelist. */
    predicate HasFilterDeclared(): (r: bool)
      requires Valid()
      reads this
      ensures !r ==> filterableAttributes == []
    {
      declared
    }

    /** `has_filter(*args)`: does nothing when filtering is already declared;
        otherwise records the arguments, less a trailing options Hash, as the
        whitelist. */
    method HasFilter(args: seq<Arg>)
      requires Valid()
      modifies this
      ensures Valid() && HasFilterDeclared()
      ensures old(HasFilterDeclared()) ==> filterableAttributes == old(filterableAttributes)
      ensures !old(HasFilterDeclared()) ==> filterableAttributes == WithoutOptions(args)
    {
      if declared {
        return;
      }
      declared := true;
      filterableAttributes := WithoutOptions(args);
    }

    /** What `filter_by` and the guard read from the class. */
    function Setup(): FilterSetup
      reads this
    {
      FilterSetup(columnNames, filterableAttributes)
    }
  }

  /** Declaring a class twice keeps the first declaration. */
  method DeclareTwice(columns: set<string>, first: seq<Arg>, second: seq<Arg>) returns (c: FilterableClass)
    ensures c.declared && c.columnNames == columns
    ensures c.filterableAttributes == WithoutOptions(first)
  {
    c := new FilterableClass(columns);
    c.HasFilter(first);
    c.HasFilter(second);
  }

  /** A class declared with `has_filter(*args)` and then filtered by one
      criterion raises the access error exactly when the criterion's column
      is a schema column that the declaration did not name as a Symbol. */
  method FilterAfterDeclaring(columns: set<string>, args: seq<Arg>, criterion: Criterion) returns (r: Filtered)
    ensures r == Raised(IllegalAttributeAccess(criterion.column))
        <==> criterion.column in columns && Sym(criterion.column) !in WithoutOptions(args)
  {
    var c := new FilterableClass(columns);
    c.HasFilter(args);
    r := FilterBy(c.Setup(), Single(criterion));
    SingleIsGuarded(c.Setup(), criterion);
  }
}
