/**
 * The offer filter every checker applies to the inventory mapping, and the
 * first-match scan over it.
 *
 * The checkers run `for value in json_data.values()` and return on the first
 * value with `value.get("country") == C and value.get('price') <= P` and
 * `value.get("count") != 0`. The target country C and the price ceiling P are
 * parameters here; each checker fixes its own pair.
 */
module Offers {
  import opened Http

  /** `value.get("country") == country`. */
  predicate ForCountry(e: Entry, country: int) {
    e.Offer? && e.country == Some(country)
  }

  /**
   * Testing the filter on this value raises: the value has no `.get`, or it
   * is for the target country and its missing price is compared with `<=`
   * (a `TypeError`). The price of any other country's value is never compared,
   * since `and` short-circuits.
   */
  predicate Raises(e: Entry, country: int) {
    e.NotObject? || (ForCountry(e, country) && e.price.None?)
  }

  /** The filter: target country, price at most the ceiling, count not 0 (a missing count is not 0). */
  predicate Qualifies(e: Entry, country: int, ceiling: real) {
    ForCountry(e, country) && e.price.Some? && e.price.value <= ceiling && e.count != Some(0)
  }

  /** The value is looked at and passed over: no exception and no match. */
  predicate PassedOver(e: Entry, country: int, ceiling: real) {
    !Raises(e, country) && !Qualifies(e, country, ceiling)
  }

  /** Where the scan ends: on a matching value (its count and price), after the last value, or in an exception. */
  datatype Scan = Hit(count: Option<int>, price: real) | Miss | Crash

  /** The reference definition of the scan, value by value in insertion order. */
  function FirstMatch(values: seq<Entry>, country: int, ceiling: real): Scan
  {
    if values == [] then Miss
    else if Raises(values[0], country) then Crash
    else if Qualifies(values[0], country, ceiling) then Hit(values[0].count, values[0].price.value)
    else FirstMatch(values[1..], country, ceiling)
  }

  /** The scan of a whole document: one that is not a mapping has no `.values()` and raises. */
  function ScanOf(p: Payload, country: int, ceiling: real): Scan {
    match p
    case NotMapping => Crash
    case Mapping(values) => FirstMatch(values, country, ceiling)
  }

  /** Position k is where the scan stops with a match: it qualifies and every earlier value was passed over. */
  predicate IsFirstMatch(values: seq<Entry>, k: int, country: int, ceiling: real) {
    && 0 <= k < |values|
    && Qualifies(values[k], country, ceiling)
    && forall j :: 0 <= j < k ==> PassedOver(values[j], country, ceiling)
  }

  /** Position k is where the scan stops with an exception. */
  predicate IsFirstRaise(values: seq<Entry>, k: int, country: int, ceiling: real) {
    && 0 <= k < |values|
    && Raises(values[k], country)
    && forall j :: 0 <= j < k ==> PassedOver(values[j], country, ceiling)
  }

  /** No value makes the filter raise: every value is an object, and every target-country value has a price. */
  predicate WellFormed(values: seq<Entry>, country: int) {
    forall j :: 0 <= j < |values| ==> !Raises(values[j], country)
  }

  /**
   * The loop of `get_numbers`: walks the values in order and returns at the
   * first match, or at the first value on which the filter raises.
   */
  method ScanOffers(p: Payload, country: int, ceiling: real) returns (s: Scan)
    ensures s == ScanOf(p, country, ceiling)
  {
    if p.NotMapping? {
      return Crash;
    }
    var values := p.values;
    for i := 0 to |values|
      invariant FirstMatch(values, country, ceiling) == FirstMatch(values[i..], country, ceiling)
    {
      var value := values[i];
      assert values[i..][1..] == values[i + 1..];
      if value.NotObject? {
        return Crash;
      }
      if value.country == Some(country) {
        if value.price.None? {
          return Crash;
        }
        if value.price.value <= ceiling {
          if value.count != Some(0) {
            return Hit(value.count, value.price.value);
          }
        }
      }
    }
    assert values[|values|..] == [];
    return Miss;
  }

  /** The scan hits exactly when some position is the first match, and then it reports that value's count and price. */
  lemma {:induction false} HitIsFirstMatch(values: seq<Entry>, country: int, ceiling: real)
    ensures FirstMatch(values, country, ceiling).Hit? <==> exists k :: IsFirstMatch(values, k, country, ceiling)
    ensures forall k :: IsFirstMatch(values, k, country, ceiling) ==>
              FirstMatch(values, country, ceiling) == Hit(values[k].count, values[k].price.value)
    decreases |values|
  {
    if values == [] || Raises(values[0], country) {
    } else if Qualifies(values[0], country, ceiling) {
      assert IsFirstMatch(values, 0, country, ceiling);
    } else {
      var rest := values[1..];
      HitIsFirstMatch(rest, country, ceiling);
      forall k | IsFirstMatch(values, k, country, ceiling)
        ensures 1 <= k && IsFirstMatch(rest, k - 1, country, ceiling)
      {
        forall j | 0 <= j < k - 1 ensures PassedOver(rest[j], country, ceiling) {
          assert rest[j] == values[j + 1];
        }
      }
      forall k | IsFirstMatch(rest, k, country, ceiling)
        ensures IsFirstMatch(values, k + 1, country, ceiling)
      {
        forall j | 0 <= j < k + 1 ensures PassedOver(values[j], country, ceiling) {
          if j > 0 { assert values[j] == rest[j - 1]; }
        }
      }
    }
  }

  /** The scan raises exactly when the filter raises on a value before any match. */
  lemma {:induction false} CrashIsFirstRaise(values: seq<Entry>, country: int, ceiling: real)
    ensures FirstMatch(values, country, ceiling).Crash? <==> exists k :: IsFirstRaise(values, k, country, ceiling)
    decreases |values|
  {
    if values == [] {
    } else if Raises(values[0], country) {
      assert IsFirstRaise(values, 0, country, ceiling);
    } else if Qualifies(values[0], country, ceiling) {
      assert forall k :: IsFirstRaise(values, k, country, ceiling) ==> k > 0 && PassedOver(values[0], country, ceiling);
    } else {
      var rest := values[1..];
      CrashIsFirstRaise(rest, country, ceiling);
      forall k | IsFirstRaise(values, k, country, ceiling)
        ensures 1 <= k && IsFirstRaise(rest, k - 1, country, ceiling)
      {
        forall j | 0 <= j < k - 1 ensures PassedOver(rest[j], country, ceiling) {
          assert rest[j] == values[j + 1];
        }
      }
      forall k | IsFirstRaise(rest, k, country, ceiling)
        ensures IsFirstRaise(values, k + 1, country, ceiling)
      {
        forall j | 0 <= j < k + 1 ensures PassedOver(values[j], country, ceiling) {
          if j > 0 { assert values[j] == rest[j - 1]; }
        }
      }
    }
  }

  /**
   * On an inventory whose values never make the filter raise, the scan
   * cannot raise, and it hits if and only if SOME value qualifies, reporting
   * the earliest qualifying one.
   */
  lemma WellFormedHitIffQualifying(values: seq<Entry>, country: int, ceiling: real)
    requires WellFormed(values, country)
    ensures !FirstMatch(values, country, ceiling).Crash?
    ensures FirstMatch(values, country, ceiling).Hit? <==> exists k :: 0 <= k < |values| && Qualifies(values[k], country, ceiling)
    ensures forall k :: 0 <= k < |values| && Qualifies(values[k], country, ceiling) &&
                        (forall j :: 0 <= j < k ==> !Qualifies(values[j], country, ceiling)) ==>
              FirstMatch(values, country, ceiling) == Hit(values[k].count, values[k].price.value)
  {
    HitIsFirstMatch(values, country, ceiling);
    CrashIsFirstRaise(values, country, ceiling);
    if exists k :: 0 <= k < |values| && Qualifies(values[k], country, ceiling) {
      var k := Earliest(values, country, ceiling);
      assert IsFirstMatch(values, k, country, ceiling);
    }
  }

  /** The position of the earliest qualifying value. */
  lemma {:induction false} Earliest(values: seq<Entry>, country: int, ceiling: real) returns (k: nat)
    requires exists i :: 0 <= i < |values| && Qualifies(values[i], country, ceiling)
    ensures k < |values| && Qualifies(values[k], country, ceiling)
    ensures forall j :: 0 <= j < k ==> !Qualifies(values[j], country, ceiling)
  {
    var i :| 0 <= i < |values| && Qualifies(values[i], country, ceiling);
    k := 0;
    while !Qualifies(values[k], country, ceiling)
      invariant k <= i
      invariant forall j :: 0 <= j < k ==> !Qualifies(values[j], country, ceiling)
      decreases i - k
    {
      k := k + 1;
    }
  }

  /** A target-country value within the price ceiling but with count 0 is skipped and the scan goes on. */
  lemma SoldOutIsSkipped(e: Entry, rest: seq<Entry>, country: int, ceiling: real)
    requires ForCountry(e, country) && e.price.Some? && e.price.value <= ceiling && e.count == Some(0)
    ensures FirstMatch([e] + rest, country, ceiling) == FirstMatch(rest, country, ceiling)
  {
    assert ([e] + rest)[1..] == rest;
  }

  /**
   * A value for another country is passed over whatever its price holds,
   * a missing price included: the price is compared only after the country
   * has matched.
   */
  lemma OtherCountryIsSkipped(e: Entry, rest: seq<Entry>, country: int, ceiling: real)
    requires e.Offer? && e.country != Some(country)
    ensures FirstMatch([e] + rest, country, ceiling) == FirstMatch(rest, country, ceiling)
  {
    assert ([e] + rest)[1..] == rest;
  }
}
