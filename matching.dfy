/** The matching rules of the parameter step (src/components/ParameterSelector.tsx): how one
    catalog object is compared with the values the user typed for the selected parameters,
    the filter built from that comparison, and the name search over parameter definitions. */
module Matching {
  import opened Wrappers
  import opened Seqs
  import opened Text
  import opened Numbers
  import opened ObjectTypes

  // ---------------------------------------------------------------------------------------
  // Ranges

  /** `isValueInRange(range, value)`. The string is split on EVERY '-', the first two
      pieces are trimmed and parsed, and `value` must lie between them, both ends
      included. Without a '-' the string is not a range at all. */
  function IsValueInRange(range: string, value: real): (r: bool)
    ensures r ==> '-' in range
  {
    if '-' !in range then false
    else
      var pieces := Split(range, '-');
      SplitHasTwo(range, '-');
      var lo := ParseFloat(Trim(pieces[0]));
      var hi := ParseFloat(Trim(pieces[1]));
      lo.Some? && hi.Some? && lo.value <= value && value <= hi.value
  }

  /** A range whose text starts with '-' has an empty first piece, which does not parse:
      a negative lower bound such as "-30 - 45" never matches anything. */
  lemma LeadingMinusNeverInRange(range: string, value: real)
    requires range != [] && range[0] == '-'
    ensures !IsValueInRange(range, value)
  {
    assert Split(range, '-')[0] == [];
  }

  /** A numeral as the catalog writes one: not empty, without '-', and with no whitespace
      at either end. */
  predicate Numeral(s: string)
  {
    s != [] && '-' !in s && !IsWhitespace(s[0]) && !IsWhitespace(s[|s| - 1])
  }

  /** Nothing but whitespace. */
  predicate Blank(s: string)
  {
    forall i | 0 <= i < |s| :: IsWhitespace(s[i])
  }

  /** Two numerals joined by a '-' (with any whitespace around it) form the inclusive
      range between the numbers they spell. */
  lemma {:induction false} RangeOfNumerals(a: string, mid: string, b: string, left: string, right: string, value: real)
    requires mid == left + "-" + right
    requires Numeral(a) && Numeral(b) && Blank(left) && Blank(right)
    ensures IsValueInRange(a + mid + b, value) <==>
              ParseFloat(a).Some? && ParseFloat(b).Some? &&
              ParseFloat(a).value <= value <= ParseFloat(b).value
  {
    PaddedPieces(a, mid, b, left, right);
    assert (a + mid + b)[|a + left|] == '-';
    RangeOfTwoPieces(a + mid + b, a + left, right + b, value);
  }

  /** The two pieces of such a range are the numerals with their padding, which trimming
      removes. */
  lemma PaddedPieces(a: string, mid: string, b: string, left: string, right: string)
    requires mid == left + "-" + right
    requires Numeral(a) && Numeral(b) && Blank(left) && Blank(right)
    ensures Split(a + mid + b, '-') == [a + left, right + b]
    ensures Trim(a + left) == a && Trim(right + b) == b
  {
    var x, y := a + left, right + b;
    PaddedHasNoMinus(a, left);
    PaddedHasNoMinus(b, right);
    assert a + mid + b == x + ['-'] + y;
    SplitOnce(x, y, '-');
    TrimPadded([], a, left);
    TrimPadded(right, b, []);
    assert [] + a + left == x && right + b + [] == y;
  }

  lemma PaddedHasNoMinus(a: string, pad: string)
    requires '-' !in a
    requires forall i | 0 <= i < |pad| :: IsWhitespace(pad[i])
    ensures '-' !in a + pad && '-' !in pad + a
  {
    assert forall i | 0 <= i < |pad| :: pad[i] != '-';
    assert forall c | c in a + pad :: c in a || c in pad;
    assert forall c | c in pad + a :: c in a || c in pad;
  }

  /** A range that splits into exactly two pieces compares with their trimmed values. */
  lemma RangeOfTwoPieces(range: string, x: string, y: string, value: real)
    requires '-' in range && Split(range, '-') == [x, y]
    ensures IsValueInRange(range, value) <==>
              ParseFloat(Trim(x)).Some? && ParseFloat(Trim(y)).Some? &&
              ParseFloat(Trim(x)).value <= value <= ParseFloat(Trim(y)).value
  {
    var pieces := Split(range, '-');
    assert pieces[0] == x && pieces[1] == y;
  }

  /** The range a catalog would print from two non-negative numbers, "lo - hi", holds
      exactly the values between them. */
  lemma RangeOfNumbers(lo: Decimal, hi: Decimal, value: real)
    requires lo.Value() >= 0.0 && hi.Value() >= 0.0
    ensures IsValueInRange(FormatDecimal(lo) + " - " + FormatDecimal(hi), value) <==>
              lo.Value() <= value <= hi.Value()
  {
    var a, b := FormatDecimal(lo), FormatDecimal(hi);
    PrintedNumeral(lo);
    PrintedNumeral(hi);
    RangeOfNumerals(a, " - ", b, " ", " ", value);
    ParseFormatRoundTrip(lo);
    ParseFormatRoundTrip(hi);
  }

  /** A non-negative number prints without '-' and with no whitespace at either end. */
  lemma PrintedNumeral(d: Decimal)
    requires d.Value() >= 0.0
    ensures Numeral(FormatDecimal(d))
  {
    var s := FormatDecimal(d);
    assert IsDigit(s[0]);
    FormatEndsInDigit(d);
    MinusOnlyInFront(s);
  }

  lemma MinusOnlyInFront(s: string)
    requires s != [] && s[0] != '-' && '-' !in s[1..]
    ensures '-' !in s
  {
    assert s == [s[0]] + s[1..];
  }

  /** Only the first two '-'-separated pieces are read: anything after a second '-' is
      ignored. */
  lemma {:induction false} ExtraPiecesIgnored(a: string, b: string, c: string, value: real)
    requires '-' !in a && '-' !in b
    ensures IsValueInRange(a + "-" + b + "-" + c, value) == IsValueInRange(a + "-" + b, value)
  {
    SplitLong(a, b, c);
    SplitShort(a, b);
    assert (a + "-" + b + "-" + c)[|a|] == '-';
    assert (a + "-" + b)[|a|] == '-';
  }

  lemma SplitLong(a: string, b: string, c: string)
    requires '-' !in a && '-' !in b
    ensures Split(a + "-" + b + "-" + c, '-') == [a, b] + Split(c, '-')
  {
    assert a + "-" + b + "-" + c == a + ['-'] + (b + ['-'] + c);
    SplitAtFirst(a, b + ['-'] + c, '-');
    SplitAtFirst(b, c, '-');
    assert [a] + ([b] + Split(c, '-')) == [a, b] + Split(c, '-');
  }

  lemma SplitShort(a: string, b: string)
    requires '-' !in a && '-' !in b
    ensures Split(a + "-" + b, '-') == [a, b]
  {
    SplitJoin([a, b], '-');
    assert Join([a, b], '-') == a + "-" + b by {
      assert [a, b][1..] == [b];
    }
  }

  // ---------------------------------------------------------------------------------------
  // One criterion

  /** `Math.abs(v - t) <= v * 0.1`: the typed value is within 10% of the object's value.
      The band is empty when the object's value is negative. */
  predicate WithinTolerance(v: real, t: real)
    ensures WithinTolerance(v, t) <==> 0.9 * v <= t <= 1.1 * v
  {
    (if v - t < 0.0 then t - v else v - t) <= v * 0.1
  }

  /** `values[id]`, with "" for a missing entry: the filter treats an undefined and an
      empty value alike (`!userValue`). */
  function UserValue(values: map<string, string>, id: string): (v: string)
    ensures id !in values ==> v == ""
  {
    if id in values then values[id] else ""
  }

  /** `ps.find(c => c.id === id)`: the first parameter carrying `id`, if any. */
  function FindById(ps: seq<Parameter>, id: string): (r: Option<Parameter>)
    ensures r.None? <==> id !in Ids(ps)
    ensures r.Some? ==> exists k | 0 <= k < |ps| :: ps[k] == r.value && r.value.id == id &&
                          forall j | 0 <= j < k :: ps[j].id != id
  {
    if ps == [] then None
    else if ps[0].id == id then Some(ps[0])
    else
      var r := FindById(ps[1..], id);
      assert Ids(ps) == {ps[0].id} + Ids(ps[1..]) by {
        assert forall i | 1 <= i < |ps| :: ps[i] == ps[1..][i - 1];
      }
      assert r.Some? ==> exists k | 0 <= k < |ps| :: ps[k] == r.value && r.value.id == id &&
                           forall j | 0 <= j < k :: ps[j].id != id by {
        if r.Some? {
          var k :| 0 <= k < |ps[1..]| && ps[1..][k] == r.value && r.value.id == id &&
                   forall j | 0 <= j < k :: ps[1..][j].id != id;
          assert ps[k + 1] == r.value;
          assert forall j | 1 <= j < k + 1 :: ps[j] == ps[1..][j - 1];
        }
      }
      r
  }

  /** `obj.characteristics?.find(c => c.id === id)`. */
  function FindCharacteristic(obj: SystemObject, id: string): (r: Option<Parameter>)
    ensures r.None? <==> obj.characteristics.None? || id !in Ids(obj.characteristics.value)
    ensures r.Some? ==> r.value.id == id && r.value in obj.characteristics.value
  {
    if obj.characteristics.None? then None else FindById(obj.characteristics.value, id)
  }

  /** The parameter `find` returns is the first one carrying the identifier. */
  lemma FindFirst(ps: seq<Parameter>, id: string, j: nat)
    requires j < |ps| && ps[j].id == id
    requires forall i | 0 <= i < j :: ps[i].id != id
    ensures FindById(ps, id) == Some(ps[j])
  {
    assert id in Ids(ps);
    var r := FindById(ps, id);
    var k :| 0 <= k < |ps| && ps[k] == r.value && r.value.id == id && forall i | 0 <= i < k :: ps[i].id != id;
    assert k == j;
  }

  /** How the object's value `objStr` (its `toString()`) is compared with a non-empty
      user entry. A value holding '-' is a range, and only a number inside it matches, with
      no fall-back to the text. Otherwise, when both sides parse as numbers, the entry
      must lie within 10% of the object's number. Otherwise the two texts must be equal. */
  function ValueMatches(objStr: string, user: string): (r: bool)
    ensures '-' in objStr && ParseFloat(user).None? ==> !r
    ensures '-' !in objStr && (ParseFloat(user).None? || ParseFloat(objStr).None?) ==> (r <==> objStr == user)
  {
    var target := ParseFloat(user);
    if '-' in objStr then
      target.Some? && IsValueInRange(objStr, target.value)
    else if target.Some? && ParseFloat(objStr).Some? then
      WithinTolerance(ParseFloat(objStr).value, target.value)
    else
      objStr == user
  }

  /** The criterion one selected parameter puts on one object. An empty or missing user
      value lets every object through; an object lacking the characteristic fails. */
  function Criterion(obj: SystemObject, param: Parameter, values: map<string, string>): (r: bool)
    ensures UserValue(values, param.id) == "" ==> r
    ensures r && UserValue(values, param.id) != "" ==>
              obj.characteristics.Some? && param.id in Ids(obj.characteristics.value)
  {
    var user := UserValue(values, param.id);
    if user == "" then true
    else
      match FindCharacteristic(obj, param.id)
      case None => false
      case Some(c) => ValueMatches(c.value.ToString(), user)
  }

  /** A scalar compared with a tolerance comes from an object string without '-', so it
      is never negative, and neither is the tolerance `0.1 * v`. */
  lemma ScalarToleranceNonNegative(objStr: string)
    requires '-' !in objStr && ParseFloat(objStr).Some?
    ensures ParseFloat(objStr).value * 0.1 >= 0.0
  {
    ParseFloatNonNegative(objStr);
  }

  /** A non-negative numeric characteristic matches exactly the entries that parse to a
      number within 10% of it: `toString` and `parseFloat` round-trip, so the text
      comparison can never rescue an entry that does not parse. */
  lemma NumericCharacteristic(obj: SystemObject, param: Parameter, values: map<string, string>, d: Decimal)
    requires FindCharacteristic(obj, param.id).Some?
    requires FindCharacteristic(obj, param.id).value.value == Num(d)
    requires d.Value() >= 0.0
    requires UserValue(values, param.id) != ""
    ensures Criterion(obj, param, values) <==>
              ParseFloat(UserValue(values, param.id)).Some? &&
              WithinTolerance(d.Value(), ParseFloat(UserValue(values, param.id)).value)
  {
    var s, user := FormatDecimal(d), UserValue(values, param.id);
    CriterionCompares(obj, param, values);
    MinusOnlyInFront(s);
    ParseFormatRoundTrip(d);
    NumericValueMatches(s, user, d.Value());
  }

  /** With a non-empty entry and a characteristic present, the criterion is the comparison
      of the characteristic's `toString()` with the entry. */
  lemma CriterionCompares(obj: SystemObject, param: Parameter, values: map<string, string>)
    requires FindCharacteristic(obj, param.id).Some?
    requires UserValue(values, param.id) != ""
    ensures Criterion(obj, param, values) ==
              ValueMatches(FindCharacteristic(obj, param.id).value.value.ToString(), UserValue(values, param.id))
  {
  }

  /** An object string without '-' that parses to `v` matches exactly the entries that
      parse to a number within 10% of `v`: an entry equal to the string would parse too. */
  lemma NumericValueMatches(objStr: string, user: string, v: real)
    requires '-' !in objStr && ParseFloat(objStr) == Some(v)
    ensures ValueMatches(objStr, user) <==> ParseFloat(user).Some? && WithinTolerance(v, ParseFloat(user).value)
  {
  }

  /** A negative numeric characteristic prints with a leading '-', so it is read as a
      range whose first piece is empty, and no entry ever matches it. */
  lemma NegativeCharacteristicNeverMatches(obj: SystemObject, param: Parameter, values: map<string, string>, d: Decimal)
    requires FindCharacteristic(obj, param.id).Some?
    requires FindCharacteristic(obj, param.id).value.value == Num(d)
    requires d.Value() < 0.0
    requires UserValue(values, param.id) != ""
    ensures !Criterion(obj, param, values)
  {
    var s := FormatDecimal(d);
    var t := ParseFloat(UserValue(values, param.id));
    if t.Some? {
      LeadingMinusNeverInRange(s, t.value);
    }
  }

  /** A characteristic written as a range "a - b" of two numerals admits exactly the
      entries that parse to a number between them, both ends included. */
  lemma RangeCharacteristic(obj: SystemObject, param: Parameter, values: map<string, string>,
                            a: string, mid: string, b: string, left: string, right: string)
    requires FindCharacteristic(obj, param.id).Some?
    requires FindCharacteristic(obj, param.id).value.value == Text(a + mid + b)
    requires mid == left + "-" + right
    requires Numeral(a) && Numeral(b) && Blank(left) && Blank(right)
    requires UserValue(values, param.id) != ""
    ensures Criterion(obj, param, values) <==>
              ParseFloat(UserValue(values, param.id)).Some? && ParseFloat(a).Some? && ParseFloat(b).Some? &&
              ParseFloat(a).value <= ParseFloat(UserValue(values, param.id)).value <= ParseFloat(b).value
  {
    var t := ParseFloat(UserValue(values, param.id));
    assert (a + mid + b)[|a| + |left|] == '-';
    if t.Some? {
      RangeOfNumerals(a, mid, b, left, right, t.value);
    }
  }

  /** A range written as text admits no text fall-back: an entry equal to the object's
      text, but not starting with a number, is rejected. */
  lemma RangeHasNoTextFallback(objStr: string)
    requires '-' in objStr && ParseFloat(objStr).None?
    ensures !ValueMatches(objStr, objStr)
  {
  }

  // ---------------------------------------------------------------------------------------
  // The filter

  /** `params.every(param => criterion(obj, param))`. */
  function MatchesAll(obj: SystemObject, params: seq<Parameter>, values: map<string, string>): (r: bool)
    ensures r <==> forall i | 0 <= i < |params| :: Criterion(obj, params[i], values)
  {
    if params == [] then true
    else
      var r := Criterion(obj, params[0], values) && MatchesAll(obj, params[1..], values);
      assert forall i | 1 <= i < |params| :: params[i] == params[1..][i - 1];
      r
  }

  /** `catalog.filter(obj => obj.type === objectType)`. */
  function OfType(catalog: seq<SystemObject>, objectType: string): (r: seq<SystemObject>)
    ensures IsSubsequence(r, catalog)
    ensures forall o :: o in r <==> o in catalog && o.objectType == objectType
    ensures forall o {:trigger multiset(r)[o]} ::
              multiset(r)[o] == if o.objectType == objectType then multiset(catalog)[o] else 0
  {
    var r := Filter(catalog, (o: SystemObject) => o.objectType == objectType);
    assert forall o | o in catalog && o.objectType == objectType :: o in r by {
      forall o | o in catalog && o.objectType == objectType ensures o in r {
        var i :| 0 <= i < |catalog| && catalog[i] == o;
      }
    }
    r
  }

  /** The objects `filterObjectsByUserCriteria` keeps when parameters are selected: those
      of the type that meet every selected parameter's criterion, in catalog order. */
  function FilterObjects(catalog: seq<SystemObject>, objectType: string, params: seq<Parameter>,
                         values: map<string, string>): (r: seq<SystemObject>)
    ensures IsSubsequence(r, catalog)
    ensures forall o :: o in r <==> o in catalog && o.objectType == objectType && MatchesAll(o, params, values)
    ensures forall o {:trigger multiset(r)[o]} ::
              multiset(r)[o] ==
                if o.objectType == objectType && MatchesAll(o, params, values) then multiset(catalog)[o] else 0
  {
    var r := Filter(catalog, (o: SystemObject) => o.objectType == objectType && MatchesAll(o, params, values));
    assert forall o | o in catalog && o.objectType == objectType && MatchesAll(o, params, values) :: o in r by {
      forall o | o in catalog && o.objectType == objectType && MatchesAll(o, params, values) ensures o in r {
        var i :| 0 <= i < |catalog| && catalog[i] == o;
      }
    }
    r
  }

  /** `filter` looks at the first object, then at the rest. */
  lemma FilterObjectsCons(catalog: seq<SystemObject>, objectType: string, params: seq<Parameter>,
                          values: map<string, string>)
    requires catalog != []
    ensures FilterObjects(catalog, objectType, params, values) ==
              (if catalog[0].objectType == objectType && MatchesAll(catalog[0], params, values) then [catalog[0]] else []) +
              FilterObjects(catalog[1..], objectType, params, values)
  {
  }

  /** Filtering a catalog in two parts and concatenating gives the filter of the whole. */
  lemma {:induction false} FilterObjectsAppend(a: seq<SystemObject>, b: seq<SystemObject>, objectType: string,
                                               params: seq<Parameter>, values: map<string, string>)
    ensures FilterObjects(a + b, objectType, params, values) ==
              FilterObjects(a, objectType, params, values) + FilterObjects(b, objectType, params, values)
  {
    FilterAppend(a, b, (o: SystemObject) => o.objectType == objectType && MatchesAll(o, params, values));
  }

  /** When every object of a catalog is of the type and meets every criterion, the filter
      keeps the whole catalog. */
  lemma FilterObjectsKeepsAll(catalog: seq<SystemObject>, objectType: string,
                               params: seq<Parameter>, values: map<string, string>)
    requires forall i | 0 <= i < |catalog| ::
               catalog[i].objectType == objectType && MatchesAll(catalog[i], params, values)
    ensures FilterObjects(catalog, objectType, params, values) == catalog
  {
    FilterKeepsAll(catalog, (o: SystemObject) => o.objectType == objectType && MatchesAll(o, params, values));
  }

  /** When no object of a catalog is both of the type and meets every criterion, the
      filter keeps nothing. */
  lemma FilterObjectsKeepsNone(catalog: seq<SystemObject>, objectType: string,
                               params: seq<Parameter>, values: map<string, string>)
    requires forall i | 0 <= i < |catalog| ::
               !(catalog[i].objectType == objectType && MatchesAll(catalog[i], params, values))
    ensures FilterObjects(catalog, objectType, params, values) == []
  {
  }

  /** With no parameter selected, the filter is just the type filter, which is what the
      early-return branch of `filterObjectsByUserCriteria` and the initial effect compute. */
  lemma NoParametersMeansType(catalog: seq<SystemObject>, objectType: string, values: map<string, string>)
    ensures FilterObjects(catalog, objectType, [], values) == OfType(catalog, objectType)
  {
    FilterAgree(catalog, (o: SystemObject) => o.objectType == objectType && MatchesAll(o, [], values),
                         (o: SystemObject) => o.objectType == objectType);
  }

  /** Selecting one more parameter can only narrow the result, keeping catalog order. */
  lemma AddParameterNarrows(catalog: seq<SystemObject>, objectType: string, params: seq<Parameter>,
                            p: Parameter, values: map<string, string>)
    ensures IsSubsequence(FilterObjects(catalog, objectType, params + [p], values),
                          FilterObjects(catalog, objectType, params, values))
  {
    forall o | o in catalog
      ensures MatchesAll(o, params + [p], values) ==> MatchesAll(o, params, values)
    {
      assert forall i | 0 <= i < |params| :: (params + [p])[i] == params[i];
    }
    FilterMonotone(catalog,
      (o: SystemObject) => o.objectType == objectType && MatchesAll(o, params + [p], values),
      (o: SystemObject) => o.objectType == objectType && MatchesAll(o, params, values));
  }

  /** The filter reads user values only for the selected parameters: entries for other
      identifiers, present or not, make no difference. */
  lemma OnlySelectedValuesCount(catalog: seq<SystemObject>, objectType: string, params: seq<Parameter>,
                                values: map<string, string>, others: map<string, string>)
    requires forall id | id in Ids(params) :: UserValue(values, id) == UserValue(others, id)
    ensures FilterObjects(catalog, objectType, params, values) == FilterObjects(catalog, objectType, params, others)
  {
    forall o | o in catalog
      ensures MatchesAll(o, params, values) == MatchesAll(o, params, others)
    {
      assert forall i | 0 <= i < |params| :: params[i].id in Ids(params);
    }
    FilterAgree(catalog,
      (o: SystemObject) => o.objectType == objectType && MatchesAll(o, params, values),
      (o: SystemObject) => o.objectType == objectType && MatchesAll(o, params, others));
  }

  /** A parameter with no user value yet passes every object, so appending it leaves the
      result as it was: this is the pass `toggleParameter` runs right after a select,
      with the value map from before the toggle. */
  lemma ValuelessParameterChangesNothing(catalog: seq<SystemObject>, objectType: string, params: seq<Parameter>,
                                         p: Parameter, values: map<string, string>)
    requires p.id !in values
    ensures FilterObjects(catalog, objectType, params + [p], values) == FilterObjects(catalog, objectType, params, values)
  {
    forall o | o in catalog
      ensures MatchesAll(o, params + [p], values) == MatchesAll(o, params, values)
    {
      assert forall i | 0 <= i < |params| :: (params + [p])[i] == params[i];
      assert (params + [p])[|params|] == p;
    }
    FilterAgree(catalog,
      (o: SystemObject) => o.objectType == objectType && MatchesAll(o, params + [p], values),
      (o: SystemObject) => o.objectType == objectType && MatchesAll(o, params, values));
  }

  // ---------------------------------------------------------------------------------------
  // The name search

  /** The search keeps a definition when its lower-cased name contains the lower-cased
      term (the term is not trimmed for this test). */
  predicate NameMatches(p: Parameter, term: string)
    ensures term == [] ==> NameMatches(p, term)
    ensures NameMatches(p, term) ==> |term| <= |p.name|
  {
    assert StartsWith(ToLower(p.name)[0..], ToLower([]));
    Contains(ToLower(p.name), ToLower(term))
  }

  /** `handleSearch`'s list: every definition for a blank term, otherwise those whose
      name contains the term, ignoring case, in their original order. */
  function SearchParameters(defs: seq<Parameter>, term: string): (r: seq<Parameter>)
    ensures Trim(term) == [] ==> r == defs
    ensures IsSubsequence(r, defs)
    ensures Trim(term) != [] ==> forall p :: p in r <==> p in defs && NameMatches(p, term)
  {
    if Trim(term) == [] then
      SubsequenceReflexive(defs);
      defs
    else
      var r := Filter(defs, (p: Parameter) => NameMatches(p, term));
      assert forall p | p in defs && NameMatches(p, term) :: p in r by {
        forall p | p in defs && NameMatches(p, term) ensures p in r {
          var i :| 0 <= i < |defs| && defs[i] == p;
        }
      }
      r
  }

  /** A search for a non-blank term keeps each matching definition as often as the list
      holds it, and no other. */
  lemma SearchKeepsCounts(defs: seq<Parameter>, term: string)
    requires Trim(term) != []
    ensures forall p {:trigger multiset(SearchParameters(defs, term))[p]} ::
              multiset(SearchParameters(defs, term))[p] == if NameMatches(p, term) then multiset(defs)[p] else 0
  {
    var r := Filter(defs, (p: Parameter) => NameMatches(p, term));
    assert SearchParameters(defs, term) == r;
  }

  /** Lower-casing the term first changes nothing: the search is case-insensitive. */
  lemma SearchIgnoresCase(defs: seq<Parameter>, term: string)
    ensures SearchParameters(defs, ToLower(term)) == SearchParameters(defs, term)
  {
    var lower := ToLower(term);
    ToLowerIdempotent(term);
    assert (Trim(lower) == []) == (Trim(term) == []) by {
      assert forall i | 0 <= i < |term| :: IsWhitespace(lower[i]) == IsWhitespace(term[i]);
    }
    if Trim(term) != [] {
      FilterAgree(defs, (p: Parameter) => NameMatches(p, lower), (p: Parameter) => NameMatches(p, term));
    }
  }
}
