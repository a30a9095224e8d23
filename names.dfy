/** The alias table that rewrites removal-request country names into Natural Earth names. */
module Names {

  /** Request-table spelling on the left, Natural Earth `NAME` on the right. */
  const NameMapping: map<string, string> := map[
    "Bosnia & Herzegovina" := "Bosnia and Herz.",
    "Cape Verde" := "Cabo Verde",
    "Dominican Republic" := "Dominican Rep.",
    "C\U{f4}te d\U{2019}Ivoire" := "C\U{f4}te d'Ivoire",
    "Myanmar (Burma)" := "Myanmar",
    "South Sudan" := "S. Sudan",
    "United States" := "United States of America",
    "St. Vincent & Grenadines" := "St. Vin. and Gren.",
    "Trinidad & Tobago" := "Trinidad and Tobago",
    "T\U{fc}rkiye" := "Turkey"
  ]

  /**
   * `Series.replace(NameMapping)` on one value: a name that is a key of the table is
   * rewritten to its entry, and any other name passes through unchanged.
   */
  function Resolve(name: string): (r: string)
    ensures name in NameMapping ==> r == NameMapping[name]
    ensures name !in NameMapping ==> r == name
  {
    if name in NameMapping then NameMapping[name] else name
  }

  /** Every rewritten name is a Natural Earth name, and none of them is itself an alias. */
  lemma TargetsAreNotAliases()
    ensures forall a :: a in NameMapping ==> NameMapping[a] !in NameMapping
  {
    assert NameMapping.Values !! NameMapping.Keys;
  }

  /**
   * Resolution is idempotent: resolving an already resolved name changes nothing, so it
   * does not matter that `replace` rewrites each value only once.
   */
  lemma ResolveIdempotent(name: string)
    ensures Resolve(Resolve(name)) == Resolve(name)
  {
    TargetsAreNotAliases();
  }

  /** A name that resolution changes is one of the ten aliases. */
  lemma ResolveChangesOnlyAliases(name: string)
    ensures Resolve(name) != name <==> name in NameMapping
  {
    TargetsAreNotAliases();
  }
}
