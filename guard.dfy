/**
 * `guard_attribute_access!` and `IllegalAttributeAccessError`: the access
 * check `filter_by` runs on the column of every criterion.
 */
module AttributeGuard {
  import opened Wrappers

  /** An argument of `has_filter`: a Symbol, a String, or an options Hash. */
  datatype Arg = Sym(name: string) | Str(name: string) | OptionsHash

  /** `args.extract_options!`: a trailing options Hash is removed, nothing else. */
  function WithoutOptions(args: seq<Arg>): (r: seq<Arg>)
    ensures r <= args && |args| - 1 <= |r|
    ensures |r| < |args| <==> |args| > 0 && args[|args| - 1] == OptionsHash
    ensures forall i :: 0 <= i < |args| && args[i] != OptionsHash ==> args[i] in r
  {
    if |args| > 0 && args[|args| - 1] == OptionsHash then args[..|args| - 1] else args
  }

  /** What the guard consults: the schema's column names and the whitelist
      (`filterable_attributes`) of one record class. */
  datatype FilterSetup = FilterSetup(columnNames: set<string>, filterableAttributes: seq<Arg>)

  datatype IllegalAttributeAccessError = IllegalAttributeAccessError(attribute: string)

  /** The attribute is a schema column that the whitelist does not name as a Symbol. */
  predicate Forbidden(setup: FilterSetup, attribute: string)
  {
    attribute in setup.columnNames && Sym(attribute) !in setup.filterableAttributes
  }

  /** `guard_attribute_access!(attribute)`: `Some` is the error it raises. */
  function GuardAttributeAccess(setup: FilterSetup, attribute: string): (r: Option<IllegalAttributeAccessError>)
    ensures r.Some? ==> r.value.attribute == attribute
  {
    if Forbidden(setup, attribute) then Some(IllegalAttributeAccessError(attribute)) else None
  }

  /** The guard lets through every name that is not a real column, whatever
      the whitelist holds, and every whitelisted column. */
  lemma GuardAllows(setup: FilterSetup, attribute: string)
    ensures attribute !in setup.columnNames ==> GuardAttributeAccess(setup, attribute) == None
    ensures Sym(attribute) in setup.filterableAttributes ==> GuardAttributeAccess(setup, attribute) == None
    ensures GuardAttributeAccess(setup, attribute) == None
        <==> attribute !in setup.columnNames || Sym(attribute) in setup.filterableAttributes
  {
  }

  /** The whitelist is compared by Symbol: a column whitelisted as a String
      is still refused. */
  lemma StringEntriesDoNotWhitelist(columns: set<string>, attribute: string)
    requires attribute in columns
    ensures GuardAttributeAccess(FilterSetup(columns, [Str(attribute)]), attribute)
         == Some(IllegalAttributeAccessError(attribute))
  {
  }
}
