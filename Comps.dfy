/** `gather_comps`: comparable records fetched over growing radii, recent
    sales before active listings, until enough of them carry a price;
    then deduplicated by address. */
module Comps {
  import opened Base
  import opened Text
  import opened Listing

  /** The two provider endpoints: recent sales and active listings. */
  datatype Kind = Sales | ForSale

  /** One entry of `tried`: which endpoint, at which radius, and how many
      records it returned. */
  datatype Attempt = Attempt(kind: Kind, radius: real, count: nat)

  /** What `gather_comps` returns: the comps kept and the requests made. */
  datatype Gathered = Gathered(comps: seq<Comp>, tried: seq<Attempt>)

  /** The provider, as a function of endpoint and radius. A request that
      fails over the network yields no records. */
  type Fetcher = (Kind, real) -> seq<Raw>

  /** How one record is turned into a comp; `gather_comps` uses
      `normalize_listing` (`Listing.Normalize`). The loop and its proofs
      hold for any such function. */
  type Normalizer = Raw -> Result<Comp, Error>

  /** One request of the loop: an endpoint and a radius. */
  datatype Query = Query(kind: Kind, radius: real)

  /** The requests in the order the loop may make them: for each radius,
      recent sales and then active listings. */
  function Schedule(radii: seq<real>): (s: seq<Query>)
    ensures |s| == 2 * |radii|
    decreases |radii|
  {
    if radii == [] then []
    else [Query(Sales, radii[0]), Query(ForSale, radii[0])] + Schedule(radii[1..])
  }

  /** Radius `i` is used by requests `k = 2i` (sales) and `k + 1` (active listings). */
  lemma {:induction false} ScheduleOf(radii: seq<real>, i: nat, k: nat)
    requires i < |radii| && k == 2 * i
    ensures Schedule(radii)[k] == Query(Sales, radii[i])
    ensures Schedule(radii)[k + 1] == Query(ForSale, radii[i])
    decreases i
  {
    if i > 0 {
      ScheduleOf(radii[1..], i - 1, k - 2);
    }
  }

  function KindOf(radii: seq<real>, j: nat): Kind
    requires j < 2 * |radii|
  {
    Schedule(radii)[j].kind
  }

  function RadiusOf(radii: seq<real>, j: nat): real
    requires j < 2 * |radii|
  {
    Schedule(radii)[j].radius
  }

  /** The records request `j` returns. */
  function Records(fetch: Fetcher, radii: seq<real>, j: nat): seq<Raw>
    requires j < 2 * |radii|
  {
    fetch(KindOf(radii, j), RadiusOf(radii, j))
  }

  /** The records returned by the first `k` requests, in order. */
  function Fetched(fetch: Fetcher, radii: seq<real>, k: nat): seq<Raw>
    requires k <= 2 * |radii|
  {
    if k == 0 then [] else Fetched(fetch, radii, k - 1) + Records(fetch, radii, k - 1)
  }

  /** The `tried` log of the first `k` requests. */
  function Attempts(fetch: Fetcher, radii: seq<real>, k: nat): (log: seq<Attempt>)
    requires k <= 2 * |radii|
    ensures |log| == k
  {
    if k == 0 then []
    else Attempts(fetch, radii, k - 1) + [Attempt(KindOf(radii, k - 1), RadiusOf(radii, k - 1), |Records(fetch, radii, k - 1)|)]
  }

  /** Entry `j` of the log names request `j` of the schedule and the
      number of records it returned. */
  lemma {:induction false} AttemptsSpec(fetch: Fetcher, radii: seq<real>, k: nat)
    requires k <= 2 * |radii|
    ensures forall j :: 0 <= j < k ==>
              Attempts(fetch, radii, k)[j] == Attempt(KindOf(radii, j), RadiusOf(radii, j), |Records(fetch, radii, j)|)
  {
    if k > 0 {
      AttemptsSpec(fetch, radii, k - 1);
    }
  }

  /** `normalize_listing` over records in order; the first record whose
      conversion fails ends it. */
  function NormalizeAll(norm: Normalizer, raws: seq<Raw>): (r: Result<seq<Comp>, Error>)
    ensures r.Success? ==> |r.value| == |raws|
    decreases |raws|
  {
    if raws == [] then Success([])
    else
      var init :- NormalizeAll(norm, raws[..|raws| - 1]);
      var c :- norm(raws[|raws| - 1]);
      Success(init + [c])
  }

  /** Normalizing a list succeeds exactly when every record normalizes,
      and then gives each record's normal form in the same position;
      otherwise the error is that of the first record that fails. */
  lemma {:induction false} NormalizeAllSpec(norm: Normalizer, raws: seq<Raw>)
    ensures NormalizeAll(norm, raws).Success? <==> forall i :: 0 <= i < |raws| ==> norm(raws[i]).Success?
    ensures NormalizeAll(norm, raws).Success? ==>
              |NormalizeAll(norm, raws).value| == |raws| &&
              forall i :: 0 <= i < |raws| ==> NormalizeAll(norm, raws).value[i] == norm(raws[i]).value
    ensures NormalizeAll(norm, raws).Failure? ==>
              exists i :: 0 <= i < |raws| && norm(raws[i]) == Failure(NormalizeAll(norm, raws).error) &&
                          forall j :: 0 <= j < i ==> norm(raws[j]).Success?
    decreases |raws|
  {
    if raws != [] {
      var n := |raws| - 1;
      var init := raws[..n];
      NormalizeAllSpec(norm, init);
      assert forall i :: 0 <= i < n ==> init[i] == raws[i];
      if NormalizeAll(norm, init).Success? && norm(raws[n]).Failure? {
        assert norm(raws[n]) == Failure(NormalizeAll(norm, raws).error);
      }
    }
  }

  /** Normalizing one more record: the earlier failure, else this
      record's failure, else one more comp. */
  lemma NormalizeAllSnoc(norm: Normalizer, raws: seq<Raw>, x: Raw)
    ensures NormalizeAll(norm, raws + [x]) ==
              if NormalizeAll(norm, raws).Failure? then NormalizeAll(norm, raws)
              else if norm(x).Failure? then Failure(norm(x).error)
              else Success(NormalizeAll(norm, raws).value + [norm(x).value])
  {
    assert (raws + [x])[..|raws|] == raws;
  }

  /** A failure stays a failure, with the same error, whatever follows. */
  lemma {:induction false} NormalizeAllFailurePersists(norm: Normalizer, a: seq<Raw>, b: seq<Raw>)
    requires NormalizeAll(norm, a).Failure?
    ensures NormalizeAll(norm, a + b) == NormalizeAll(norm, a)
    decreases |b|
  {
    if b == [] {
      assert a + b == a;
    } else {
      var n := |b| - 1;
      NormalizeAllFailurePersists(norm, a, b[..n]);
      assert (a + b)[..|a + b| - 1] == a + b[..n];
    }
  }

  /** `comps` followed by the normal forms of `batch`, or the error of
      the first record of `batch` that cannot be normalized. */
  function Append(norm: Normalizer, comps: seq<Comp>, batch: seq<Raw>): Result<seq<Comp>, Error> {
    var added :- NormalizeAll(norm, batch);
    Success(comps + added)
  }

  /** Normalizing two lists one after the other is normalizing their
      concatenation. */
  lemma {:induction false} NormalizeAllConcat(norm: Normalizer, a: seq<Raw>, b: seq<Raw>)
    requires NormalizeAll(norm, a).Success?
    ensures NormalizeAll(norm, a + b) == Append(norm, NormalizeAll(norm, a).value, b)
    decreases |b|
  {
    var v := NormalizeAll(norm, a).value;
    if b == [] {
      assert a + b == a;
      assert v + [] == v;
    } else {
      var n := |b| - 1;
      var b0 := b[..n];
      var x := b[n];
      assert b == b0 + [x];
      ConcatAssoc(a, b0, [x]);
      NormalizeAllConcat(norm, a, b0);
      NormalizeAllSnoc(norm, a + b0, x);
      NormalizeAllSnoc(norm, b0, x);
      if NormalizeAll(norm, b0).Success? && norm(x).Success? {
        ConcatAssoc(v, NormalizeAll(norm, b0).value, [norm(x).value]);
      }
    }
  }

  /** `for s in batch: comps.append(normalize_listing(s))` */
  method AppendNormalized(norm: Normalizer, comps: seq<Comp>, batch: seq<Raw>) returns (res: Result<seq<Comp>, Error>)
    ensures res == Append(norm, comps, batch)
  {
    var out := comps;
    assert comps + [] == comps;
    for i := 0 to |batch|
      invariant NormalizeAll(norm, batch[..i]).Success?
      invariant out == comps + NormalizeAll(norm, batch[..i]).value
    {
      assert batch[..i + 1] == batch[..i] + [batch[i]];
      NormalizeAllSnoc(norm, batch[..i], batch[i]);
      var c := norm(batch[i]);
      if c.Failure? {
        NormalizeAllFailurePersists(norm, batch[..i + 1], batch[i + 1..]);
        assert batch[..i + 1] + batch[i + 1..] == batch;
        return Failure(c.error);
      }
      ConcatAssoc(comps, NormalizeAll(norm, batch[..i]).value, [c.value]);
      out := out + [c.value];
    }
    assert batch[..|batch|] == batch;
    return Success(out);
  }

  lemma ConcatAssoc<T>(a: seq<T>, b: seq<T>, c: seq<T>)
    ensures (a + b) + c == a + (b + c)
  {
  }

  /** A comp counts towards `want` when its price is truthy. */
  predicate HasPrice(c: Comp) {
    NonZero(c.price)
  }

  /** `[c for c in comps if c["price"]]` */
  function Priced(cs: seq<Comp>): (r: seq<Comp>)
    ensures |r| <= |cs|
    decreases |cs|
  {
    if cs == [] then []
    else
      var init := Priced(cs[..|cs| - 1]);
      var c := cs[|cs| - 1];
      if HasPrice(c) then init + [c] else init
  }

  /** The filter keeps exactly the comps with a price, each as often as
      it occurs; so its length is the number of priced comps. */
  lemma {:induction false} PricedSpec(cs: seq<Comp>)
    ensures forall c :: c in Priced(cs) <==> c in cs && HasPrice(c)
    ensures forall c :: multiset(Priced(cs))[c] == if HasPrice(c) then multiset(cs)[c] else 0
    decreases |cs|
  {
    if cs != [] {
      var init := cs[..|cs| - 1];
      var last := cs[|cs| - 1];
      PricedSpec(init);
      assert cs == init + [last];
      assert multiset(cs) == multiset(init) + multiset{last};
    }
  }

  /** The positions of the comps with a price. */
  function PricedAt(cs: seq<Comp>): set<nat> {
    set i | 0 <= i < |cs| && HasPrice(cs[i])
  }

  /** `len([c for c in comps if c["price"]])` counts the positions that
      hold a priced comp. */
  lemma {:induction false} PricedCount(cs: seq<Comp>)
    ensures |Priced(cs)| == |PricedAt(cs)|
    decreases |cs|
  {
    if cs != [] {
      var n := |cs| - 1;
      var init := cs[..n];
      PricedCount(init);
      assert forall i :: 0 <= i < n ==> init[i] == cs[i];
      if HasPrice(cs[n]) {
        assert PricedAt(cs) == PricedAt(init) + {n};
      } else {
        assert PricedAt(cs) == PricedAt(init);
      }
    }
  }

  /** More comps never means fewer priced ones. */
  lemma {:induction false} PricedGrows(a: seq<Comp>, b: seq<Comp>)
    ensures |Priced(a)| <= |Priced(a + b)|
    decreases |b|
  {
    if b == [] {
      assert a + b == a;
    } else {
      var n := |b| - 1;
      PricedGrows(a, b[..n]);
      assert (a + b)[..|a + b| - 1] == a + b[..n];
    }
  }

  /** The deduplication key: `(c["address"] or "").lower()` of an address
      that is text or falsy. */
  function Key(c: Comp): string {
    match c.address
    case Str(s) => Lower(s)
    case _ => ""
  }

  /** `(c["address"] or "").lower()` does not raise: the address is text
      or falsy. */
  predicate KeyReadable(c: Comp) {
    !Truthy(c.address) || c.address.Str?
  }

  /** Addresses that differ only in the case of ASCII letters share their key. */
  lemma KeyIgnoresCase(c: Comp, d: Comp)
    requires c.address.Str? && d.address.Str? && |c.address.s| == |d.address.s|
    requires forall i :: 0 <= i < |c.address.s| ==> SameUpToCase(c.address.s[i], d.address.s[i])
    ensures Key(c) == Key(d)
  {
    LowerIgnoresCase(c.address.s, d.address.s);
  }

  /** The non-empty keys among `cs`: the `seen` set after `cs`. */
  function Seen(cs: seq<Comp>): set<string> {
    set i | 0 <= i < |cs| && Key(cs[i]) != "" :: Key(cs[i])
  }

  /** `cs[i]` has a non-empty key that no earlier comp has. */
  predicate IsFirst(cs: seq<Comp>, i: int)
    requires 0 <= i < |cs|
  {
    Key(cs[i]) != "" && forall j :: 0 <= j < i ==> Key(cs[j]) != Key(cs[i])
  }

  /** The first comp of every non-empty key, in their order. It keeps
      comps of `cs` only, and no more of them. */
  function KeepFirst(cs: seq<Comp>): (r: seq<Comp>)
    ensures |r| <= |cs|
    ensures forall c :: c in r ==> c in cs && Key(c) != ""
    decreases |cs|
  {
    if cs == [] then []
    else
      var init := cs[..|cs| - 1];
      var c := cs[|cs| - 1];
      if Key(c) != "" && Key(c) !in Seen(init) then KeepFirst(init) + [c] else KeepFirst(init)
  }

  lemma SeenSnoc(cs: seq<Comp>, c: Comp)
    ensures Seen(cs + [c]) == Seen(cs) + (if Key(c) != "" then {Key(c)} else {})
  {
    var s := cs + [c];
    forall k | k in Seen(s) ensures k in Seen(cs) + (if Key(c) != "" then {Key(c)} else {}) {
      var i :| 0 <= i < |s| && Key(s[i]) != "" && Key(s[i]) == k;
      if i < |cs| {
        assert s[i] == cs[i];
      }
    }
    forall k | k in Seen(cs) ensures k in Seen(s) {
      var i :| 0 <= i < |cs| && Key(cs[i]) != "" && Key(cs[i]) == k;
      assert s[i] == cs[i];
    }
    if Key(c) != "" {
      assert s[|cs|] == c;
    }
  }

  /** Appending a comp leaves earlier first occurrences as they are; the
      new comp is a first occurrence exactly when its key is new and not empty. */
  lemma IsFirstSnoc(cs: seq<Comp>, c: Comp)
    ensures forall i :: 0 <= i < |cs| ==> (IsFirst(cs + [c], i) <==> IsFirst(cs, i))
    ensures IsFirst(cs + [c], |cs|) <==> Key(c) != "" && Key(c) !in Seen(cs)
  {
    var s := cs + [c];
    forall i | 0 <= i < |cs| ensures IsFirst(s, i) <==> IsFirst(cs, i) {
      assert s[i] == cs[i];
      assert forall j :: 0 <= j < i ==> s[j] == cs[j];
    }
    if Key(c) != "" && Key(c) in Seen(cs) {
      var k :| 0 <= k < |cs| && Key(cs[k]) != "" && Key(cs[k]) == Key(c);
      assert s[k] == cs[k];
    }
    if IsFirst(s, |cs|) {
      forall k | 0 <= k < |cs| && Key(cs[k]) != "" ensures Key(cs[k]) != Key(c) {
        assert s[k] == cs[k];
      }
    }
  }

  /** The kept comps have non-empty, pairwise distinct keys, each of
      them a key of some comp. */
  lemma {:induction false} KeepFirstKeys(cs: seq<Comp>)
    ensures forall i :: 0 <= i < |KeepFirst(cs)| ==> Key(KeepFirst(cs)[i]) != "" && Key(KeepFirst(cs)[i]) in Seen(cs)
    ensures forall i, j :: 0 <= i < j < |KeepFirst(cs)| ==> Key(KeepFirst(cs)[i]) != Key(KeepFirst(cs)[j])
    decreases |cs|
  {
    if cs != [] {
      var n := |cs| - 1;
      var init := cs[..n];
      var c := cs[n];
      assert cs == init + [c];
      KeepFirstKeys(init);
      SeenSnoc(init, c);
      var r0 := KeepFirst(init);
      if Key(c) != "" && Key(c) !in Seen(init) {
        var r := r0 + [c];
        assert KeepFirst(cs) == r;
        forall i, j | 0 <= i < j < |r| ensures Key(r[i]) != Key(r[j]) {
          assert r[i] == r0[i];
          if j < |r0| {
            assert r[j] == r0[j];
          } else {
            assert Key(r0[i]) in Seen(init);
          }
        }
      } else {
        assert KeepFirst(cs) == r0;
      }
    }
  }

  /** One comp is kept for each non-empty key. */
  lemma {:induction false} KeepFirstCount(cs: seq<Comp>)
    ensures |KeepFirst(cs)| == |Seen(cs)|
    decreases |cs|
  {
    if cs != [] {
      var n := |cs| - 1;
      var init := cs[..n];
      var c := cs[n];
      assert cs == init + [c];
      KeepFirstCount(init);
      SeenSnoc(init, c);
      if Key(c) != "" && Key(c) !in Seen(init) {
        assert KeepFirst(cs) == KeepFirst(init) + [c];
      } else {
        assert KeepFirst(cs) == KeepFirst(init);
        assert Seen(cs) == Seen(init);
      }
    }
  }

  /** The kept comps are exactly the first comps of their keys. */
  lemma {:induction false} KeepFirstFirsts(cs: seq<Comp>)
    ensures forall c :: c in KeepFirst(cs) ==> exists i :: 0 <= i < |cs| && cs[i] == c && IsFirst(cs, i)
    ensures forall i :: 0 <= i < |cs| && IsFirst(cs, i) ==> cs[i] in KeepFirst(cs)
    decreases |cs|
  {
    if cs != [] {
      var n := |cs| - 1;
      var init := cs[..n];
      var c := cs[n];
      assert cs == init + [c];
      KeepFirstFirsts(init);
      IsFirstSnoc(init, c);
      var r0 := KeepFirst(init);
      var r := KeepFirst(cs);
      if IsFirst(cs, n) {
        assert r == r0 + [c];
      } else {
        assert r == r0;
      }
      forall x | x in r ensures exists i :: 0 <= i < |cs| && cs[i] == x && IsFirst(cs, i) {
        if x in r0 {
          var i :| 0 <= i < n && init[i] == x && IsFirst(init, i);
          assert cs[i] == x;
        } else {
          assert cs[n] == x;
        }
      }
      forall i | 0 <= i < |cs| && IsFirst(cs, i) ensures cs[i] in r {
        if i < n {
          assert init[i] == cs[i];
        }
      }
    }
  }

  /** The positions of the first comps of their keys, in ascending order. */
  function FirstIndices(cs: seq<Comp>): (idx: seq<nat>)
    ensures forall m :: 0 <= m < |idx| ==> idx[m] < |cs|
    decreases |cs|
  {
    if cs == [] then []
    else
      var n := |cs| - 1;
      FirstIndices(cs[..n]) + (if IsFirst(cs, n) then [n] else [])
  }

  /** The positions are strictly increasing, and they are exactly the
      positions of first comps. */
  lemma {:induction false} FirstIndicesSpec(cs: seq<Comp>)
    ensures forall m, m' :: 0 <= m < m' < |FirstIndices(cs)| ==> FirstIndices(cs)[m] < FirstIndices(cs)[m']
    ensures forall i :: 0 <= i < |cs| ==> (i in FirstIndices(cs) <==> IsFirst(cs, i))
    decreases |cs|
  {
    if cs != [] {
      var n := |cs| - 1;
      var init := cs[..n];
      assert cs == init + [cs[n]];
      FirstIndicesSpec(init);
      IsFirstSnoc(init, cs[n]);
    }
  }

  /** The kept comps are the comps at the first positions, in that order. */
  lemma {:induction false} KeepFirstOrder(cs: seq<Comp>)
    ensures |KeepFirst(cs)| == |FirstIndices(cs)|
    ensures forall m :: 0 <= m < |KeepFirst(cs)| ==> KeepFirst(cs)[m] == cs[FirstIndices(cs)[m]]
    decreases |cs|
  {
    if cs != [] {
      var n := |cs| - 1;
      var init := cs[..n];
      assert cs == init + [cs[n]];
      KeepFirstOrder(init);
      IsFirstSnoc(init, cs[n]);
      forall m | 0 <= m < |FirstIndices(init)| ensures init[FirstIndices(init)[m]] == cs[FirstIndices(init)[m]] {
      }
    }
  }

  /** Deduplication keeps exactly one comp per non-empty key, the first
      one, in the order of first occurrence, and drops every comp with an
      empty key. */
  lemma KeepFirstSpec(cs: seq<Comp>)
    ensures forall i :: 0 <= i < |KeepFirst(cs)| ==> Key(KeepFirst(cs)[i]) != ""
    ensures forall i, j :: 0 <= i < j < |KeepFirst(cs)| ==> Key(KeepFirst(cs)[i]) != Key(KeepFirst(cs)[j])
    ensures forall c :: c in KeepFirst(cs) ==> exists i :: 0 <= i < |cs| && cs[i] == c && IsFirst(cs, i)
    ensures forall i :: 0 <= i < |cs| && IsFirst(cs, i) ==> cs[i] in KeepFirst(cs)
    ensures |KeepFirst(cs)| == |Seen(cs)|
    ensures |KeepFirst(cs)| == |FirstIndices(cs)|
    ensures forall m :: 0 <= m < |KeepFirst(cs)| ==> KeepFirst(cs)[m] == cs[FirstIndices(cs)[m]]
    ensures forall m, m' :: 0 <= m < m' < |FirstIndices(cs)| ==> FirstIndices(cs)[m] < FirstIndices(cs)[m']
    ensures forall i :: 0 <= i < |cs| ==> (i in FirstIndices(cs) <==> IsFirst(cs, i))
  {
    KeepFirstKeys(cs);
    KeepFirstCount(cs);
    KeepFirstFirsts(cs);
    KeepFirstOrder(cs);
    FirstIndicesSpec(cs);
  }

  /** One more comp: its key joins `seen`, and it is kept when that key
      is new and not empty. */
  lemma KeepFirstStep(cs: seq<Comp>, i: nat)
    requires i < |cs|
    ensures Seen(cs[..i + 1]) == Seen(cs[..i]) + (if Key(cs[i]) != "" then {Key(cs[i])} else {})
    ensures KeepFirst(cs[..i + 1]) ==
              if Key(cs[i]) != "" && Key(cs[i]) !in Seen(cs[..i]) then KeepFirst(cs[..i]) + [cs[i]] else KeepFirst(cs[..i])
    ensures AllReadable(cs[..i + 1]) <==> AllReadable(cs[..i]) && KeyReadable(cs[i])
  {
    assert cs[..i + 1][..i] == cs[..i];
    assert cs[..i + 1] == cs[..i] + [cs[i]];
    SeenSnoc(cs[..i], cs[i]);
    assert forall j :: 0 <= j < i ==> cs[..i + 1][j] == cs[..i][j];
  }

  /** No address among `cs` makes `.lower()` raise. */
  predicate AllReadable(cs: seq<Comp>) {
    forall i :: 0 <= i < |cs| ==> KeyReadable(cs[i])
  }

  /** The deduplication of `gather_comps`: the first comp of every
      address, or the error `.lower()` raises on an address that is not text. */
  function Deduplicate(cs: seq<Comp>): (r: Result<seq<Comp>, Error>)
    ensures r.Failure? <==> exists i :: 0 <= i < |cs| && !KeyReadable(cs[i])
    ensures r.Failure? ==> r.error == NotText("address")
    ensures r.Success? ==> r.value == KeepFirst(cs)
  {
    if AllReadable(cs) then Success(KeepFirst(cs)) else Failure(NotText("address"))
  }

  /** A comp whose address is a non-zero number makes deduplication raise. */
  lemma NumericAddressFailsDedup(cs: seq<Comp>, i: nat)
    requires i < |cs| && cs[i].address.Num? && cs[i].address.n != 0.0
    ensures Deduplicate(cs) == Failure(NotText("address"))
  {
  }

  /** The deduplication loop of `gather_comps`, with its `seen` set; it
      raises at the first address that is neither text nor falsy. */
  method Dedup(comps: seq<Comp>) returns (res: Result<seq<Comp>, Error>)
    ensures res == Deduplicate(comps)
  {
    var seen: set<string> := {};
    var deduped: seq<Comp> := [];
    for i := 0 to |comps|
      invariant deduped == KeepFirst(comps[..i])
      invariant seen == Seen(comps[..i])
      invariant AllReadable(comps[..i])
    {
      assert comps[..i + 1][i] == comps[i];
      if !KeyReadable(comps[i]) {
        return Failure(NotText("address"));
      }
      var k := Key(comps[i]);
      KeepFirstStep(comps, i);
      if k != "" && k !in seen {
        seen := seen + {k};
        deduped := deduped + [comps[i]];
      }
    }
    assert comps[..|comps|] == comps;
    return Success(deduped);
  }

  /** What the first `k` requests collect: the normal forms of their
      records in order, or the first error. */
  function Collected(norm: Normalizer, fetch: Fetcher, radii: seq<real>, k: nat): Result<seq<Comp>, Error>
    requires k <= 2 * |radii|
  {
    if k == 0 then Success([])
    else
      var before :- Collected(norm, fetch, radii, k - 1);
      Append(norm, before, Records(fetch, radii, k - 1))
  }

  /** Normalizing two lists one after the other is normalizing their
      concatenation, a failure in the first list included. */
  lemma NormalizeAllAppend(norm: Normalizer, a: seq<Raw>, b: seq<Raw>)
    ensures NormalizeAll(norm, a + b) == (var v :- NormalizeAll(norm, a); Append(norm, v, b))
  {
    if NormalizeAll(norm, a).Failure? {
      NormalizeAllFailurePersists(norm, a, b);
    } else {
      NormalizeAllConcat(norm, a, b);
    }
  }

  /** Collecting request by request is normalizing all the fetched
      records at once. */
  lemma {:induction false} CollectedSpec(norm: Normalizer, fetch: Fetcher, radii: seq<real>, k: nat)
    requires k <= 2 * |radii|
    ensures Collected(norm, fetch, radii, k) == NormalizeAll(norm, Fetched(fetch, radii, k))
  {
    if k > 0 {
      CollectedSpec(norm, fetch, radii, k - 1);
      NormalizeAllAppend(norm, Fetched(fetch, radii, k - 1), Records(fetch, radii, k - 1));
    }
  }

  /** One more request after a point that did not fail: its records are
      appended, its entry is logged, and the loop stops there or goes on. */
  lemma Advance(norm: Normalizer, fetch: Fetcher, radii: seq<real>, want: int, k: nat, comps: seq<Comp>)
    requires k < 2 * |radii|
    requires Collected(norm, fetch, radii, k) == Success(comps)
    ensures Collected(norm, fetch, radii, k + 1) == Append(norm, comps, Records(fetch, radii, k))
    ensures Attempts(fetch, radii, k + 1) ==
              Attempts(fetch, radii, k) + [Attempt(KindOf(radii, k), RadiusOf(radii, k), |Records(fetch, radii, k)|)]
  {
  }

  /** The loop stops after request `k`: a record failed to normalize, or
      at least `want` comps have a price. */
  predicate Stops(norm: Normalizer, fetch: Fetcher, radii: seq<real>, want: int, k: nat)
    requires k <= 2 * |radii|
  {
    var c := Collected(norm, fetch, radii, k);
    c.Failure? || |Priced(c.value)| >= want
  }

  /** The number of requests made when the first `k` did not stop the loop. */
  function RequestsFrom(norm: Normalizer, fetch: Fetcher, radii: seq<real>, want: int, k: nat): (n: nat)
    requires k <= 2 * |radii|
    ensures k <= n <= 2 * |radii|
    decreases 2 * |radii| - k
  {
    if k == 2 * |radii| then k
    else if Stops(norm, fetch, radii, want, k + 1) then k + 1
    else RequestsFrom(norm, fetch, radii, want, k + 1)
  }

  /** The number of requests `gather_comps` makes. */
  function Requests(norm: Normalizer, fetch: Fetcher, radii: seq<real>, want: int): (n: nat)
    ensures n <= 2 * |radii|
  {
    RequestsFrom(norm, fetch, radii, want, 0)
  }

  /** From a point that did not stop, the loop makes at least one more request. */
  lemma RequestsFromProgress(norm: Normalizer, fetch: Fetcher, radii: seq<real>, want: int, k: nat)
    requires k < 2 * |radii|
    ensures k < RequestsFrom(norm, fetch, radii, want, k)
  {
  }

  /** No request before the last one made stops the loop. */
  lemma {:induction false} RequestsFromNoEarlierStop(norm: Normalizer, fetch: Fetcher, radii: seq<real>, want: int, k: nat)
    requires k <= 2 * |radii|
    ensures forall j :: k < j < RequestsFrom(norm, fetch, radii, want, k) ==> !Stops(norm, fetch, radii, want, j)
    decreases 2 * |radii| - k
  {
    if k < 2 * |radii| && !Stops(norm, fetch, radii, want, k + 1) {
      var n := RequestsFrom(norm, fetch, radii, want, k + 1);
      assert RequestsFrom(norm, fetch, radii, want, k) == n;
      RequestsFromNoEarlierStop(norm, fetch, radii, want, k + 1);
      forall j | k < j < n ensures !Stops(norm, fetch, radii, want, j) {
        if j > k + 1 {
          assert k + 1 < j < n;
        }
      }
    }
  }

  /** The loop ends early only at a request that stops it. */
  lemma {:induction false} RequestsFromStopsAt(norm: Normalizer, fetch: Fetcher, radii: seq<real>, want: int, k: nat)
    requires k <= 2 * |radii|
    ensures k < RequestsFrom(norm, fetch, radii, want, k) < 2 * |radii| ==>
              Stops(norm, fetch, radii, want, RequestsFrom(norm, fetch, radii, want, k))
    decreases 2 * |radii| - k
  {
    if k < 2 * |radii| && !Stops(norm, fetch, radii, want, k + 1) {
      RequestsFromStopsAt(norm, fetch, radii, want, k + 1);
    }
  }

  /** The loop makes requests in schedule order and stops at the first one
      after which it must stop, or when the radii run out; it makes at
      least one request unless there is no radius. */
  lemma RequestsSpec(norm: Normalizer, fetch: Fetcher, radii: seq<real>, want: int)
    ensures var n := Requests(norm, fetch, radii, want);
            && n <= 2 * |radii|
            && (radii != [] ==> 1 <= n)
            && (forall j :: 1 <= j < n ==> !Stops(norm, fetch, radii, want, j))
            && (n < 2 * |radii| ==> Stops(norm, fetch, radii, want, n))
  {
    if radii != [] {
      RequestsFromProgress(norm, fetch, radii, want, 0);
    }
    RequestsFromNoEarlierStop(norm, fetch, radii, want, 0);
    RequestsFromStopsAt(norm, fetch, radii, want, 0);
  }

  /** Later requests never leave fewer priced comps, once all of them
      normalize. */
  lemma {:induction false} PricedAlongRequests(norm: Normalizer, fetch: Fetcher, radii: seq<real>, k: nat, m: nat)
    requires k <= m <= 2 * |radii|
    requires Collected(norm, fetch, radii, m).Success?
    ensures Collected(norm, fetch, radii, k).Success?
    ensures |Priced(Collected(norm, fetch, radii, k).value)| <= |Priced(Collected(norm, fetch, radii, m).value)|
    decreases m - k
  {
    if k < m {
      PricedAlongRequests(norm, fetch, radii, k, m - 1);
      var before := Collected(norm, fetch, radii, m - 1).value;
      var added := NormalizeAll(norm, Records(fetch, radii, m - 1)).value;
      assert Collected(norm, fetch, radii, m).value == before + added;
      PricedGrows(before, added);
    }
  }

  /** When every record normalizes and even all of them together hold
      fewer than `want` priced comps, every radius is tried with both
      endpoints. */
  lemma ScarceCompsTryEverything(norm: Normalizer, fetch: Fetcher, radii: seq<real>, want: int)
    requires NormalizeAll(norm, Fetched(fetch, radii, 2 * |radii|)).Success?
    requires |Priced(NormalizeAll(norm, Fetched(fetch, radii, 2 * |radii|)).value)| < want
    ensures Requests(norm, fetch, radii, want) == 2 * |radii|
  {
    CollectedSpec(norm, fetch, radii, 2 * |radii|);
    RequestsSpec(norm, fetch, radii, want);
    var n := Requests(norm, fetch, radii, want);
    if n < 2 * |radii| {
      PricedAlongRequests(norm, fetch, radii, n, 2 * |radii|);
    }
  }

  /** The fetch loop of `gather_comps` from request `k` on, with the comps
      and the log so far; it returns the comps before deduplication. */
  function Run(norm: Normalizer, fetch: Fetcher, radii: seq<real>, want: int, k: nat, comps: seq<Comp>, tried: seq<Attempt>)
    : (r: Result<Gathered, Error>)
    requires k <= 2 * |radii|
    ensures r.Success? ==> comps <= r.value.comps && tried <= r.value.tried
    ensures r.Success? ==> |tried| < |r.value.tried| <= |tried| + 2 * |radii| - k || (k == 2 * |radii| && r.value.tried == tried)
    decreases 2 * |radii| - k
  {
    if k == 2 * |radii| then Success(Gathered(comps, tried))
    else
      var records := Records(fetch, radii, k);
      var tried' := tried + [Attempt(KindOf(radii, k), RadiusOf(radii, k), |records|)];
      var comps' :- Append(norm, comps, records);
      if |Priced(comps')| >= want then Success(Gathered(comps', tried'))
      else Run(norm, fetch, radii, want, k + 1, comps', tried')
  }

  /** What the first `n` requests amount to: the comps they collect and
      their log, or the first error. */
  function Outcome(norm: Normalizer, fetch: Fetcher, radii: seq<real>, n: nat): Result<Gathered, Error>
    requires n <= 2 * |radii|
  {
    var all :- Collected(norm, fetch, radii, n);
    Success(Gathered(all, Attempts(fetch, radii, n)))
  }

  /** From a point reached without stopping, the loop ends with the
      outcome of exactly the requests `RequestsFrom` counts. */
  lemma {:induction false} RunFrom(norm: Normalizer, fetch: Fetcher, radii: seq<real>, want: int, k: nat,
                                   comps: seq<Comp>, tried: seq<Attempt>)
    requires k <= 2 * |radii|
    requires Collected(norm, fetch, radii, k) == Success(comps)
    requires tried == Attempts(fetch, radii, k)
    ensures Run(norm, fetch, radii, want, k, comps, tried) == Outcome(norm, fetch, radii, RequestsFrom(norm, fetch, radii, want, k))
    decreases 2 * |radii| - k
  {
    if k < 2 * |radii| {
      Advance(norm, fetch, radii, want, k, comps);
      var next := Append(norm, comps, Records(fetch, radii, k));
      if next.Success? && |Priced(next.value)| < want {
        RunFrom(norm, fetch, radii, want, k + 1, next.value, Attempts(fetch, radii, k + 1));
      }
    }
  }

  /** The loop as a whole yields the outcome of the requests `Requests` counts. */
  lemma RunSpec(norm: Normalizer, fetch: Fetcher, radii: seq<real>, want: int)
    ensures Run(norm, fetch, radii, want, 0, [], []) == Outcome(norm, fetch, radii, Requests(norm, fetch, radii, want))
  {
    RunFrom(norm, fetch, radii, want, 0, [], []);
  }

  /** `max(want, 6)`: how many comps are kept at most. */
  function KeepCount(want: int): nat {
    if want > 6 then want else 6
  }

  /** The deduplication and the cut that end `gather_comps`. */
  function Finish(run: Result<Gathered, Error>, want: int): Result<Gathered, Error> {
    var g :- run;
    var kept :- Deduplicate(g.comps);
    Success(Gathered(SliceTo(kept, KeepCount(want)), g.tried))
  }

  /** Request `k` of the loop: ask the provider, log the request, append
      the normal forms of its records, and say whether enough comps now
      carry a price; the rest of the loop then goes on from there. */
  method Request(norm: Normalizer, fetch: Fetcher, ghost radii: seq<real>, ghost k: nat, kind: Kind, r: real, want: int,
                 comps: seq<Comp>, tried: seq<Attempt>)
    returns (res: Result<seq<Comp>, Error>, tried': seq<Attempt>, enough: bool)
    requires k < 2 * |radii| && kind == KindOf(radii, k) && r == RadiusOf(radii, k)
    ensures tried' == tried + [Attempt(kind, r, |fetch(kind, r)|)]
    ensures res == Append(norm, comps, fetch(kind, r))
    ensures enough <==> res.Success? && |Priced(res.value)| >= want
    ensures Run(norm, fetch, radii, want, k, comps, tried) ==
              if res.Failure? then Failure(res.error)
              else if enough then Success(Gathered(res.value, tried'))
              else Run(norm, fetch, radii, want, k + 1, res.value, tried')
  {
    var records := fetch(kind, r);
    tried' := tried + [Attempt(kind, r, |records|)];
    res := AppendNormalized(norm, comps, records);
    enough := res.Success? && |Priced(res.value)| >= want;
  }

  /** One pass of the loop body of `gather_comps` at radius `i`, which
      makes requests `k = 2i` and `k + 1`: recent sales, then, unless that
      was enough, active listings. `stop` says that the loop ends here,
      with an error or with enough priced comps. */
  method Round(norm: Normalizer, fetch: Fetcher, ghost radii: seq<real>, ghost k: nat, i: nat, r: real, want: int,
               comps: seq<Comp>, tried: seq<Attempt>)
    returns (res: Result<seq<Comp>, Error>, tried': seq<Attempt>, stop: bool)
    requires i < |radii| && k == 2 * i && r == radii[i]
    ensures res.Failure? ==> stop
    ensures Run(norm, fetch, radii, want, k, comps, tried) ==
              if res.Failure? then Failure(res.error)
              else if stop then Success(Gathered(res.value, tried'))
              else Run(norm, fetch, radii, want, k + 2, res.value, tried')
  {
    ScheduleOf(radii, i, k);
    var enough;
    res, tried', enough := Request(norm, fetch, radii, k, Sales, r, want, comps, tried);
    if res.Failure? || enough {
      return res, tried', true;
    }
    res, tried', enough := Request(norm, fetch, radii, k + 1, ForSale, r, want, res.value, tried');
    stop := res.Failure? || enough;
  }

  /** The fetch loop of `gather_comps`: the radii in order, each with a
      round of requests, until a round says to stop. */
  method FetchComps(norm: Normalizer, fetch: Fetcher, radii: seq<real>, want: int) returns (res: Result<Gathered, Error>)
    ensures res == Run(norm, fetch, radii, want, 0, [], [])
  {
    var comps: seq<Comp> := [];
    var tried: seq<Attempt> := [];
    ghost var k: nat := 0;
    for i := 0 to |radii|
      invariant k == 2 * i
      invariant Run(norm, fetch, radii, want, 0, [], []) == Run(norm, fetch, radii, want, k, comps, tried)
    {
      var step, stop;
      step, tried, stop := Round(norm, fetch, radii, k, i, radii[i], want, comps, tried);
      if step.Failure? {
        return Failure(step.error);
      }
      comps := step.value;
      if stop {
        return Success(Gathered(comps, tried));
      }
      k := k + 2;
    }
    return Success(Gathered(comps, tried));
  }

  /** `gather_comps`: requests in schedule order until a request leaves
      at least `want` priced comps (or the radii run out), then keeps the
      first comp of each address, at most `max(want, 6)` of them. A record
      that cannot be normalized ends the call with its error. */
  method GatherComps(fetch: Fetcher, radii: seq<real>, want: int) returns (res: Result<Gathered, Error>)
    ensures res == Finish(Outcome(Normalize, fetch, radii, Requests(Normalize, fetch, radii, want)), want)
  {
    RunSpec(Normalize, fetch, radii, want);
    var fetched := FetchComps(Normalize, fetch, radii, want);
    if fetched.Failure? {
      return Failure(fetched.error);
    }
    var deduped := Dedup(fetched.value.comps);
    if deduped.Failure? {
      return Failure(deduped.error);
    }
    return Success(Gathered(SliceTo(deduped.value, KeepCount(want)), fetched.value.tried));
  }

  /** In terms of the records themselves: `gather_comps` fails when a
      record among those its requests fetched cannot be normalized, with
      that record's error, or, once all of them are, when one of their
      addresses is neither text nor falsy; otherwise it returns the
      deduplicated normal forms of all of them, cut to `max(want, 6)`,
      with the log of those requests. */
  lemma GatherCompsSpec(norm: Normalizer, fetch: Fetcher, radii: seq<real>, want: int)
    ensures var n := Requests(norm, fetch, radii, want);
            var all := NormalizeAll(norm, Fetched(fetch, radii, n));
            var res := Finish(Outcome(norm, fetch, radii, n), want);
            && (res.Failure? <==> all.Failure? || exists i :: 0 <= i < |all.value| && !KeyReadable(all.value[i]))
            && (all.Failure? ==> res == Failure(all.error))
            && (all.Success? && res.Failure? ==> res.error == NotText("address"))
            && (res.Success? ==>
                  res.value == Gathered(SliceTo(KeepFirst(all.value), KeepCount(want)), Attempts(fetch, radii, n)))
  {
    CollectedSpec(norm, fetch, radii, Requests(norm, fetch, radii, want));
  }

  /** What `gather_comps` keeps has distinct, non-empty address keys, no
      more than `max(want, 6)` of them: the first comps of their addresses
      among those fetched, the earliest ones, in the order fetched. */
  lemma GatheredComps(cs: seq<Comp>, want: int)
    ensures var out := SliceTo(KeepFirst(cs), KeepCount(want));
            && (|KeepFirst(cs)| <= KeepCount(want) ==> out == KeepFirst(cs))
            && |out| == (if |FirstIndices(cs)| <= KeepCount(want) then |FirstIndices(cs)| else KeepCount(want))
            && (forall m :: 0 <= m < |out| ==> out[m] == cs[FirstIndices(cs)[m]])
            && (forall i :: 0 <= i < |out| ==> Key(out[i]) != "")
            && (forall i, j :: 0 <= i < j < |out| ==> Key(out[i]) != Key(out[j]))
            && (forall c :: c in out ==> exists i :: 0 <= i < |cs| && cs[i] == c && IsFirst(cs, i))
  {
    var r := KeepFirst(cs);
    var out := SliceTo(r, KeepCount(want));
    KeepFirstKeys(cs);
    KeepFirstFirsts(cs);
    KeepFirstOrder(cs);
    assert out == r[..|out|];
    forall m | 0 <= m < |out| ensures out[m] == r[m] && r[m] == cs[FirstIndices(cs)[m]] {
    }
    forall c | c in out ensures c in r {
      var i :| 0 <= i < |out| && out[i] == c;
      assert r[i] == c;
    }
  }
}
