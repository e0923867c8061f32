/** Field resolution and composite keys (src/utils/pivotData.js, lines 37-63):
    each row or column field is resolved against a record, either as a date
    level of another field or as the record's own value, and the resolved
    values are joined with `" | "`. */
module Keys {
  import opened Wrappers
  import opened Strings
  import opened Records
  import opened Dates

  /** How a field name is read: a date level of a base field, or a plain field. */
  datatype FieldRef = Plain(name: string) | Derived(base: string, level: Level)

  /** The suffix a field name carries for each date level. */
  function Suffix(level: Level): string
  {
    match level
    case Year => "_Year"
    case Quarter => "_Quarter"
    case Month => "_Month"
  }

  /** The `includes` chain of the resolver: `_Year` is tested first, then
      `_Quarter`, then `_Month`; the base field is the name with the first
      occurrence of that suffix removed. */
  function Classify(f: string): (r: FieldRef)
    ensures r.Plain? <==> !Includes(f, "_Year") && !Includes(f, "_Quarter") && !Includes(f, "_Month")
    ensures r.Plain? ==> r.name == f
    ensures r.Derived? ==> Includes(f, Suffix(r.level)) && r.base == ReplaceFirst(f, Suffix(r.level), "")
  {
    if Includes(f, "_Year") then Derived(ReplaceFirst(f, "_Year", ""), Year)
    else if Includes(f, "_Quarter") then Derived(ReplaceFirst(f, "_Quarter", ""), Quarter)
    else if Includes(f, "_Month") then Derived(ReplaceFirst(f, "_Month", ""), Month)
    else Plain(f)
  }

  /** The field can be resolved against the record without `.split` throwing:
      a date level's base value, when truthy, is a string. */
  predicate FieldOk(item: Record, f: string)
  {
    match Classify(f)
    case Plain(_) => true
    case Derived(b, _) => DateBaseOk(Get(item, b))
  }

  /** The value a field resolves to, as the string `join` makes of it:
      `item[f] ?? "N/A"` for a plain field. */
  function Resolve(item: Record, f: string): (r: string)
    requires FieldOk(item, f)
    ensures Classify(f).Plain? && (f !in item || item[f] == Null) ==> r == "N/A"
    ensures Classify(f).Plain? && f in item && item[f] != Null ==> r == Display(item[f])
  {
    match Classify(f)
    case Derived(b, level) => HierarchyValue(Get(item, b), level)
    case Plain(_) =>
      match Get(item, f)
      case None => "N/A"
      case Some(Null) => "N/A"
      case Some(v) => Display(v)
  }

  predicate FieldsOk(item: Record, fields: seq<string>)
  {
    forall k :: 0 <= k < |fields| ==> FieldOk(item, fields[k])
  }

  /** The resolved values of a list of fields, in field order. */
  function Resolved(item: Record, fields: seq<string>): (r: seq<string>)
    requires FieldsOk(item, fields)
    ensures |r| == |fields|
    ensures forall k :: 0 <= k < |fields| ==> r[k] == Resolve(item, fields[k])
  {
    seq(|fields|, k requires 0 <= k < |fields| => Resolve(item, fields[k]))
  }

  /** The composite key of a record for a list of fields. */
  function ComposeKey(item: Record, fields: seq<string>): string
    requires FieldsOk(item, fields)
  {
    Join(Resolved(item, fields), Delimiter)
  }

  /** Splitting a composite key on `" | "` gives back exactly one value per
      field, in order, when there is at least one field and no resolved value
      contains `'|'`. */
  lemma KeyRoundTrip(item: Record, fields: seq<string>)
    requires FieldsOk(item, fields) && |fields| >= 1
    requires forall k :: 0 <= k < |fields| ==> '|' !in Resolve(item, fields[k])
    ensures Split(ComposeKey(item, fields), Delimiter) == Resolved(item, fields)
    ensures |Split(ComposeKey(item, fields), Delimiter)| == |fields|
  {
    SplitJoin(Resolved(item, fields));
  }

  /** With no fields the key is empty, and it splits into one empty segment. */
  lemma EmptyFieldList(item: Record)
    ensures ComposeKey(item, []) == ""
    ensures Split(ComposeKey(item, []), Delimiter) == [""]
  {
    assert Resolved(item, []) == [];
    assert IndexOf("", Delimiter, 0).None?;
  }

  /** Two records whose composite keys agree resolve every field alike (the
      key determines its values) when no resolved value contains `'|'`. */
  lemma KeyDeterminesValues(a: Record, b: Record, fields: seq<string>)
    requires FieldsOk(a, fields) && FieldsOk(b, fields) && |fields| >= 1
    requires forall k :: 0 <= k < |fields| ==> '|' !in Resolve(a, fields[k]) && '|' !in Resolve(b, fields[k])
    requires ComposeKey(a, fields) == ComposeKey(b, fields)
    ensures forall k :: 0 <= k < |fields| ==> Resolve(a, fields[k]) == Resolve(b, fields[k])
  {
    KeyRoundTrip(a, fields);
    KeyRoundTrip(b, fields);
  }

  /** A base field name holding none of the three level suffixes. */
  predicate NoLevelSuffix(base: string)
  {
    !Includes(base, Suffix(Year)) && !Includes(base, Suffix(Quarter)) && !Includes(base, Suffix(Month))
  }

  /** A pattern whose only `'_'` is its first character, and which the base
      does not contain, can only occur in `<base><suffix>` right at the
      suffix, when the suffix too has its only `'_'` first. */
  lemma OnlyAtSuffix(base: string, suffix: string, pat: string)
    requires |suffix| > 0 && suffix[0] == '_' && '_' !in suffix[1..]
    requires |pat| > 0 && pat[0] == '_' && '_' !in pat[1..] && !Includes(base, pat)
    ensures IndexOf(base + suffix, pat, 0) ==
      if OccursAt(base + suffix, pat, |base|) then Some(|base|) else None
  {
    forall j: nat | j != |base| ensures !OccursAt(base + suffix, pat, j) {
      NotAtOtherPlace(base, suffix, pat, j);
    }
  }

  /** The step of `OnlyAtSuffix` for one position: inside the base the base
      would contain the pattern, across the boundary the pattern would hold
      a second `'_'`, and inside the suffix its leading `'_'` has no match. */
  lemma NotAtOtherPlace(base: string, suffix: string, pat: string, j: nat)
    requires |suffix| > 0 && suffix[0] == '_' && '_' !in suffix[1..]
    requires |pat| > 0 && pat[0] == '_' && '_' !in pat[1..] && !Includes(base, pat)
    requires j != |base|
    ensures !OccursAt(base + suffix, pat, j)
  {
    var s := base + suffix;
    if j + |pat| <= |s| {
      var w := s[j..j + |pat|];
      if j + |pat| <= |base| {
        assert !OccursAt(base, pat, j);
        assert base[j..j + |pat|] == w;
      } else if j < |base| {
        assert w[|base| - j] == '_';
        assert pat[|base| - j] == pat[1..][|base| - j - 1];
      } else {
        assert w[0] == suffix[1..][j - |base| - 1];
      }
    }
  }

  /** Each suffix starts with its only `'_'`. */
  lemma SuffixShape(level: Level)
    ensures Suffix(level)[0] == '_' && '_' !in Suffix(level)[1..]
  {
    match level
    case Year => assert Suffix(level)[1..] == "Year";
    case Quarter => assert Suffix(level)[1..] == "Quarter";
    case Month => assert Suffix(level)[1..] == "Month";
  }

  /** Right after the base, a suffix pattern matches only its own level. */
  lemma SuffixOccurs(base: string, level: Level, other: Level)
    ensures OccursAt(base + Suffix(level), Suffix(other), |base|) <==> level == other
  {
    var f := base + Suffix(level);
    var sfx := Suffix(level);
    var pat := Suffix(other);
    if other == level {
      assert f[|base|..|base| + |sfx|] == sfx;
    } else if |base| + |pat| <= |f| {
      assert f[|base|..|base| + |pat|][1] == sfx[1] != pat[1];
    }
  }

  /** In `<base><suffix>`, a suffix pattern is found (at the suffix) exactly
      when it is the suffix of that level. */
  lemma SuffixFound(base: string, level: Level, other: Level)
    requires NoLevelSuffix(base)
    ensures IndexOf(base + Suffix(level), Suffix(other), 0) ==
      if other == level then Some(|base|) else None
  {
    SuffixShape(level);
    SuffixShape(other);
    OnlyAtSuffix(base, Suffix(level), Suffix(other));
    SuffixOccurs(base, level, other);
  }

  /** Removing the suffix of `<base><suffix>` gives back the base. */
  lemma SuffixRemoved(base: string, level: Level)
    requires NoLevelSuffix(base)
    ensures ReplaceFirst(base + Suffix(level), Suffix(level), "") == base
  {
    var f := base + Suffix(level);
    SuffixFound(base, level, level);
    assert f[..|base|] == base;
    assert f[|base| + |Suffix(level)|..] == "";
  }

  /** A derived name `<base>_Year`, `<base>_Quarter` or `<base>_Month` whose
      base holds no level suffix is read as that level of that base. */
  lemma HierarchyNameClassified(base: string, level: Level)
    requires NoLevelSuffix(base)
    ensures Classify(base + Suffix(level)) == Derived(base, level)
  {
    SuffixFound(base, level, Year);
    SuffixFound(base, level, Quarter);
    SuffixFound(base, level, Month);
    SuffixRemoved(base, level);
  }
}
