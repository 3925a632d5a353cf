/** Provider records and their canonical comparable record
    (`normalize_listing`), and the best-effort search for the subject
    property among provider results (`extract_subject`). */
module Listing {
  import opened Base
  import opened Text

  /** A value in a decoded provider payload. */
  datatype Value = Null | Num(n: real) | Str(s: string)

  /** The keys of a provider record that the code reads, named after the
      JSON keys (`formattedAddress`, `address`, `listPrice`, ...). */
  datatype Field =
    | FormattedAddress | Address
    | ListPrice | Price | LastSalePrice | ClosingPrice
    | DaysOnMarket | Dom
    | SquareFootage | LivingArea | Sqft
    | YearBuilt | Latitude | Longitude

  /** A provider record: a JSON object, seen through the keys the code
      reads; a missing key reads as `Null`. */
  type Raw = map<Field, Value>

  /** Python truthiness: `None`, `0` and `""` are false. */
  predicate Truthy(v: Value) {
    match v
    case Null => false
    case Num(n) => n != 0.0
    case Str(s) => s != ""
  }

  /** `x.get(key)` */
  function Get(x: Raw, key: Field): Value {
    if key in x then x[key] else Null
  }

  /** `x.get(k0) or x.get(k1) or ... or None` */
  function FirstTruthy(x: Raw, keys: seq<Field>): (r: Option<Value>)
    ensures r.Some? ==> Truthy(r.value)
    decreases |keys|
  {
    if keys == [] then None
    else if Truthy(Get(x, keys[0])) then Some(Get(x, keys[0]))
    else FirstTruthy(x, keys[1..])
  }

  /** The `or` chain yields the value of the first key holding a truthy
      value, and `None` exactly when no key does. */
  lemma {:induction false} FirstTruthySpec(x: Raw, keys: seq<Field>)
    ensures FirstTruthy(x, keys).None? <==> forall i :: 0 <= i < |keys| ==> !Truthy(Get(x, keys[i]))
    ensures forall i :: 0 <= i < |keys| && Truthy(Get(x, keys[i])) &&
                        (forall j :: 0 <= j < i ==> !Truthy(Get(x, keys[j]))) ==>
                        FirstTruthy(x, keys) == Some(Get(x, keys[i]))
    decreases |keys|
  {
    if keys != [] && !Truthy(Get(x, keys[0])) {
      FirstTruthySpec(x, keys[1..]);
      forall i | 0 <= i < |keys| && Truthy(Get(x, keys[i])) &&
                 (forall j :: 0 <= j < i ==> !Truthy(Get(x, keys[j])))
        ensures FirstTruthy(x, keys) == Some(Get(x, keys[i]))
      {
        assert i > 0;
        assert keys[1..][i - 1] == keys[i];
        forall j | 0 <= j < i - 1 ensures !Truthy(Get(x, keys[1..][j])) {
          assert keys[1..][j] == keys[j + 1];
        }
      }
      forall i | 0 <= i < |keys| - 1 ensures keys[1..][i] == keys[i + 1] { }
    }
  }

  const AddressKeys: seq<Field> := [FormattedAddress, Address]
  const PriceKeys: seq<Field> := [ListPrice, Price, LastSalePrice, ClosingPrice]
  const DomKeys: seq<Field> := [DaysOnMarket, Dom]
  const SqftKeys: seq<Field> := [SquareFootage, LivingArea, Sqft]
  const YearKeys: seq<Field> := [YearBuilt]
  const LatKeys: seq<Field> := [Latitude]
  const LonKeys: seq<Field> := [Longitude]

  /** Why a provider record could not be read: `float(...)`/`int(...)`
      rejected the value of `field`, or the address is not text. */
  datatype Error = BadNumber(field: string) | NotText(field: string)

  /** The canonical comparable record. `address` and `lat`/`lon` keep the
      raw value: `normalize_listing` copies them without reading them. */
  datatype Comp = Comp(
    address: Value,
    price: Option<real>,
    dom: Option<int>,
    sqft: Option<int>,
    year: Option<int>,
    lat: Option<Value>,
    lon: Option<Value>)

  /** `x.get("formattedAddress") or x.get("address") or ""`, whatever its type. */
  function AddressValue(x: Raw): Value {
    match FirstTruthy(x, AddressKeys)
    case None => Str("")
    case Some(v) => v
  }

  /** The address read as text, as `extract_subject` uses it (`addr.lower()`):
      "" exactly when no address key holds a truthy value, the first truthy
      text otherwise; a truthy value that is not text is an error. */
  function AddressOf(x: Raw): (r: Result<string, Error>)
    ensures r == Success("") <==> FirstTruthy(x, AddressKeys).None?
    ensures r.Success? && r.value != "" ==> FirstTruthy(x, AddressKeys) == Some(Str(r.value))
    ensures r.Failure? <==> FirstTruthy(x, AddressKeys).Some? && !FirstTruthy(x, AddressKeys).value.Str?
    ensures r.Failure? ==> r.error == NotText("address")
  {
    match AddressValue(x)
    case Str(s) => Success(s)
    case _ => Failure(NotText("address"))
  }

  /** `int(x)` of a real: truncation toward zero. */
  function Trunc(x: real): (r: int)
    ensures 0.0 <= x ==> 0 <= r && r as real <= x < r as real + 1.0
    ensures x < 0.0 ==> r <= 0 && r as real - 1.0 < x <= r as real
  {
    if x >= 0.0 then x.Floor else -((-x).Floor)
  }

  /** `float(v)` */
  function ToFloat(field: string, v: Value): (r: Result<real, Error>)
    ensures v.Num? ==> r == Success(v.n)
    ensures v.Null? ==> r.Failure?
  {
    match v
    case Null => Failure(BadNumber(field))
    case Num(n) => Success(n)
    case Str(s) => if ParseInt(s).Some? then Success(ParseInt(s).value as real) else Failure(BadNumber(field))
  }

  /** `int(v)` */
  function ToInt(field: string, v: Value): (r: Result<int, Error>)
    ensures v.Num? ==> r.Success? && r.value == Trunc(v.n)
    ensures v.Null? ==> r.Failure?
  {
    match v
    case Null => Failure(BadNumber(field))
    case Num(n) => Success(Trunc(n))
    case Str(s) => if ParseInt(s).Some? then Success(ParseInt(s).value) else Failure(BadNumber(field))
  }

  /** `float(v) if v else None` */
  function FloatField(field: string, v: Option<Value>): (r: Result<Option<real>, Error>)
    ensures v.None? ==> r == Success(None)
    ensures v.Some? && v.value.Num? ==> r == Success(Some(v.value.n))
    ensures r.Failure? ==> r.error == BadNumber(field)
  {
    match v
    case None => Success(None)
    case Some(w) => var f :- ToFloat(field, w); Success(Some(f))
  }

  /** `int(v) if v else None` */
  function IntField(field: string, v: Option<Value>): (r: Result<Option<int>, Error>)
    ensures v.None? ==> r == Success(None)
    ensures v.Some? && v.value.Num? ==> r == Success(Some(Trunc(v.value.n)))
    ensures r.Failure? ==> r.error == BadNumber(field)
  {
    match v
    case None => Success(None)
    case Some(w) => var i :- ToInt(field, w); Success(Some(i))
  }

  /** `normalize_listing`: one canonical record from a provider record.
      A failed numeric conversion is not caught and ends the call: the
      record normalizes exactly when all four conversions succeed, and
      otherwise fails with the first rejected field in the order price,
      dom, sqft, year. The address is copied as it is, of whatever type. */
  function Normalize(x: Raw): (r: Result<Comp, Error>)
    ensures r.Failure? ==> r.error in {BadNumber("price"), BadNumber("dom"), BadNumber("sqft"), BadNumber("year")}
    ensures r.Success? <==>
              && FloatField("price", FirstTruthy(x, PriceKeys)).Success?
              && IntField("dom", FirstTruthy(x, DomKeys)).Success?
              && IntField("sqft", FirstTruthy(x, SqftKeys)).Success?
              && IntField("year", FirstTruthy(x, YearKeys)).Success?
    ensures FloatField("price", FirstTruthy(x, PriceKeys)).Failure? ==> r == Failure(BadNumber("price"))
    ensures FloatField("price", FirstTruthy(x, PriceKeys)).Success? && IntField("dom", FirstTruthy(x, DomKeys)).Failure? ==>
              r == Failure(BadNumber("dom"))
    ensures FloatField("price", FirstTruthy(x, PriceKeys)).Success? && IntField("dom", FirstTruthy(x, DomKeys)).Success? &&
            IntField("sqft", FirstTruthy(x, SqftKeys)).Failure? ==>
              r == Failure(BadNumber("sqft"))
    ensures FloatField("price", FirstTruthy(x, PriceKeys)).Success? && IntField("dom", FirstTruthy(x, DomKeys)).Success? &&
            IntField("sqft", FirstTruthy(x, SqftKeys)).Success? && IntField("year", FirstTruthy(x, YearKeys)).Failure? ==>
              r == Failure(BadNumber("year"))
  {
    var price :- FloatField("price", FirstTruthy(x, PriceKeys));
    var dom :- IntField("dom", FirstTruthy(x, DomKeys));
    var sqft :- IntField("sqft", FirstTruthy(x, SqftKeys));
    var year :- IntField("year", FirstTruthy(x, YearKeys));
    Success(Comp(AddressValue(x), price, dom, sqft, year, FirstTruthy(x, LatKeys), FirstTruthy(x, LonKeys)))
  }

  /** Each field of a normalized record is the conversion of the first
      truthy value among its candidate keys. */
  lemma NormalizeFields(x: Raw)
    requires Normalize(x).Success?
    ensures AddressValue(x) == Normalize(x).value.address
    ensures FloatField("price", FirstTruthy(x, PriceKeys)) == Success(Normalize(x).value.price)
    ensures IntField("dom", FirstTruthy(x, DomKeys)) == Success(Normalize(x).value.dom)
    ensures IntField("sqft", FirstTruthy(x, SqftKeys)) == Success(Normalize(x).value.sqft)
    ensures IntField("year", FirstTruthy(x, YearKeys)) == Success(Normalize(x).value.year)
  {
  }

  /** Every field of a normalized record is absent exactly when none of
      its candidate keys holds a truthy value; the address is then "", and
      otherwise the first truthy address value. */
  lemma NormalizeAbsentFields(x: Raw)
    requires Normalize(x).Success?
    ensures Normalize(x).value.address == Str("") <==> forall i :: 0 <= i < |AddressKeys| ==> !Truthy(Get(x, AddressKeys[i]))
    ensures Normalize(x).value.address != Str("") ==> FirstTruthy(x, AddressKeys) == Some(Normalize(x).value.address)
    ensures Normalize(x).value.price.None? <==> forall i :: 0 <= i < |PriceKeys| ==> !Truthy(Get(x, PriceKeys[i]))
    ensures Normalize(x).value.dom.None? <==> forall i :: 0 <= i < |DomKeys| ==> !Truthy(Get(x, DomKeys[i]))
    ensures Normalize(x).value.sqft.None? <==> forall i :: 0 <= i < |SqftKeys| ==> !Truthy(Get(x, SqftKeys[i]))
    ensures Normalize(x).value.year.None? <==> !Truthy(Get(x, YearBuilt))
  {
    NormalizeFields(x);
    FirstTruthySpec(x, AddressKeys);
    FirstTruthySpec(x, PriceKeys);
    FirstTruthySpec(x, DomKeys);
    FirstTruthySpec(x, SqftKeys);
    FirstTruthySpec(x, YearKeys);
    assert YearKeys[0] == YearBuilt;
  }

  /** A record with numbers where numbers are expected normalizes even when
      its address is a number, and keeps that number as its address. */
  lemma NormalizeNumericAddress(x: Raw, n: real)
    requires WellTyped(x)
    requires FirstTruthy(x, AddressKeys) == Some(Num(n))
    ensures Normalize(x).Success? && Normalize(x).value.address == Num(n)
  {
    NormalizeWellTyped(x);
  }

  /** The price is the first truthy of `listPrice`, `price`,
      `lastSalePrice`, `closingPrice`; a numeric one is taken as is. */
  lemma NormalizePrice(x: Raw, i: nat)
    requires Normalize(x).Success?
    requires i < |PriceKeys| && Get(x, PriceKeys[i]).Num? && Get(x, PriceKeys[i]).n != 0.0
    requires forall j :: 0 <= j < i ==> !Truthy(Get(x, PriceKeys[j]))
    ensures Normalize(x).value.price == Some(Get(x, PriceKeys[i]).n)
  {
    FirstTruthySpec(x, PriceKeys);
  }

  /** A days-on-market of 0 (or none at all) under both keys reads as absent. */
  lemma NormalizeZeroDom(x: Raw)
    requires Normalize(x).Success?
    requires Get(x, DaysOnMarket) in {Null, Num(0.0)} && Get(x, Dom) in {Null, Num(0.0)}
    ensures Normalize(x).value.dom == None
  {
    NormalizeAbsentFields(x);
  }

  /** The values a provider actually sends: numbers where numbers are
      expected. */
  predicate WellTyped(x: Raw) {
    forall k :: k in PriceKeys + DomKeys + SqftKeys + YearKeys && Truthy(Get(x, k)) ==> Get(x, k).Num?
  }

  /** A well-typed record always normalizes: only a malformed value can
      make the conversions raise. */
  lemma NormalizeWellTyped(x: Raw)
    requires WellTyped(x)
    ensures Normalize(x).Success?
  {
    FirstTruthyMember(x, PriceKeys);
    FirstTruthyMember(x, DomKeys);
    FirstTruthyMember(x, SqftKeys);
    FirstTruthyMember(x, YearKeys);
  }

  /** The value found is the value of one of the keys. */
  lemma {:induction false} FirstTruthyMember(x: Raw, keys: seq<Field>)
    ensures FirstTruthy(x, keys).Some? ==> exists k :: k in keys && FirstTruthy(x, keys).value == Get(x, k)
    decreases |keys|
  {
    if keys != [] && !Truthy(Get(x, keys[0])) {
      FirstTruthyMember(x, keys[1..]);
    }
  }

  /** `addr.lower().replace("#", "")`, the form in which addresses are compared. */
  function MatchForm(s: string): (r: string)
    ensures forall i :: 0 <= i < |r| ==> r[i] != '#'
    ensures r == Without(Lower(s), '#')
  {
    DeleteChar(Lower(s), '#');
    Replace(Lower(s), "#", "")
  }

  /** Addresses that differ only in the case of ASCII letters have the
      same match form. */
  lemma MatchFormIgnoresCase(a: string, b: string)
    requires |a| == |b|
    requires forall i :: 0 <= i < |a| ==> SameUpToCase(a[i], b[i])
    ensures MatchForm(a) == MatchForm(b)
  {
    LowerIgnoresCase(a, b);
  }

  /** Listing `i` is where `extract_subject` stops with a match. */
  predicate MatchesAt(listings: seq<Raw>, t: string, i: int)
    requires 0 <= i < |listings|
  {
    var a := AddressOf(listings[i]);
    a.Success? && a.value != "" && t != "" && Contains(MatchForm(a.value), t)
  }

  /** Listing `i` is passed over: its address is readable and does not match. */
  predicate PassesOver(listings: seq<Raw>, t: string, i: int)
    requires 0 <= i < |listings|
  {
    AddressOf(listings[i]).Success? && !MatchesAt(listings, t, i)
  }

  /** The loop of `extract_subject` from listing `i` on. */
  function Search(listings: seq<Raw>, t: string, i: nat): (r: Result<Option<Raw>, Error>)
    requires i <= |listings|
    ensures r.Success? && r.value.Some? ==> r.value.value in listings[i..] && Truthy(AddressValue(r.value.value))
    ensures t == "" ==> r.Failure? || r.value.None?
    ensures r.Failure? ==> r.error == NotText("address")
    decreases |listings| - i
  {
    if i == |listings| then Success(None)
    else match AddressOf(listings[i])
      case Failure(e) => Failure(e)
      case Success(a) =>
        if a != "" && t != "" && Contains(MatchForm(a), t) then Success(Some(listings[i]))
        else Search(listings, t, i + 1)
  }

  /** A listing the search returns is the first match from `i` on. */
  lemma {:induction false} SearchFound(listings: seq<Raw>, t: string, i: nat)
    requires i <= |listings|
    requires Search(listings, t, i).Success? && Search(listings, t, i).value.Some?
    ensures exists k :: i <= k < |listings| && listings[k] == Search(listings, t, i).value.value &&
                        MatchesAt(listings, t, k) && forall j :: i <= j < k ==> PassesOver(listings, t, j)
    decreases |listings| - i
  {
    if MatchesAt(listings, t, i) {
      assert listings[i] == Search(listings, t, i).value.value;
    } else {
      assert Search(listings, t, i) == Search(listings, t, i + 1);
      SearchFound(listings, t, i + 1);
      var k :| i + 1 <= k < |listings| && listings[k] == Search(listings, t, i + 1).value.value &&
               MatchesAt(listings, t, k) && forall j :: i + 1 <= j < k ==> PassesOver(listings, t, j);
      assert PassesOver(listings, t, i);
    }
  }

  /** The search finds nothing exactly when every listing from `i` on is
      passed over. */
  lemma {:induction false} SearchNone(listings: seq<Raw>, t: string, i: nat)
    requires i <= |listings|
    ensures Search(listings, t, i) == Success(None) <==> forall j :: i <= j < |listings| ==> PassesOver(listings, t, j)
    decreases |listings| - i
  {
    if i < |listings| {
      if PassesOver(listings, t, i) {
        assert Search(listings, t, i) == Search(listings, t, i + 1);
        SearchNone(listings, t, i + 1);
      }
    }
  }

  /** A failure is the error of the first unreadable address from `i` on,
      before any match. */
  lemma {:induction false} SearchFails(listings: seq<Raw>, t: string, i: nat)
    requires i <= |listings|
    requires Search(listings, t, i).Failure?
    ensures exists k :: i <= k < |listings| && AddressOf(listings[k]) == Failure(Search(listings, t, i).error) &&
                        forall j :: i <= j < k ==> PassesOver(listings, t, j)
    decreases |listings| - i
  {
    if AddressOf(listings[i]).Success? {
      assert PassesOver(listings, t, i);
      assert Search(listings, t, i) == Search(listings, t, i + 1);
      SearchFails(listings, t, i + 1);
      var k :| i + 1 <= k < |listings| && AddressOf(listings[k]) == Failure(Search(listings, t, i + 1).error) &&
               forall j :: i + 1 <= j < k ==> PassesOver(listings, t, j);
    }
  }

  /** `extract_subject`: the first listing whose address contains the
      target address, both lower-cased and without `#`; `None` when the
      target is empty or nothing matches. */
  function ExtractSubject(listings: seq<Raw>, target: string): (r: Result<Option<Raw>, Error>)
    ensures r.Success? && r.value.Some? ==>
              exists k :: 0 <= k < |listings| && listings[k] == r.value.value &&
                          MatchesAt(listings, MatchForm(target), k) &&
                          forall j :: 0 <= j < k ==> PassesOver(listings, MatchForm(target), j)
    ensures r == Success(None) <==> forall j :: 0 <= j < |listings| ==> PassesOver(listings, MatchForm(target), j)
    ensures MatchForm(target) == "" && r.Success? ==> r.value.None?
  {
    var r := Search(listings, MatchForm(target), 0);
    SearchNone(listings, MatchForm(target), 0);
    if r.Success? && r.value.Some? then
      SearchFound(listings, MatchForm(target), 0);
      r
    else
      r
  }
}
