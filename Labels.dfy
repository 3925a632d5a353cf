/** `abbreviate_address`: the short address labels of the comparable
    charts. Street suffixes are abbreviated; a label still too long keeps
    its city, state and zip and shortens the street part, or is cut and
    ends in "…". */
module Labels {
  import opened Text

  /** The suffix table of `abbreviate_address`, in the order its
      `dict.items()` yields it. */
  const Suffixes: seq<(string, string)> := [
    (" Road", " Rd"), (" Street", " St"), (" Avenue", " Ave"), (" Boulevard", " Blvd"),
    (" Drive", " Dr"), (" Court", " Ct"), (" Lane", " Ln"), (" Trail", " Trl"),
    (" Parkway", " Pkwy"), (" Place", " Pl"), (" Highway", " Hwy"),
    (" North", " N"), (" South", " S"), (" East", " E"), (" West", " W")]

  /** Every pattern is non-empty and replaced by something non-empty and
      no longer, without commas. */
  predicate Abbreviations(pairs: seq<(string, string)>) {
    forall i :: 0 <= i < |pairs| ==>
      0 < |pairs[i].1| <= |pairs[i].0| && ',' !in pairs[i].1
  }

  lemma SuffixesAbbreviate()
    ensures Abbreviations(Suffixes)
  {
  }

  /** `for k, v in pairs: s = s.replace(k, v)` */
  function ReplaceAll(s: string, pairs: seq<(string, string)>): string
    requires Abbreviations(pairs)
    decreases |pairs|
  {
    if pairs == [] then s
    else ReplaceAll(Replace(s, pairs[0].0, pairs[0].1), pairs[1..])
  }

  /** Abbreviating never lengthens the address, never empties it, and
      brings in no comma. */
  lemma {:induction false} ReplaceAllShape(s: string, pairs: seq<(string, string)>)
    requires Abbreviations(pairs)
    ensures |ReplaceAll(s, pairs)| <= |s|
    ensures ReplaceAll(s, pairs) == [] <==> s == []
    ensures ',' !in s ==> ',' !in ReplaceAll(s, pairs)
    decreases |pairs|
  {
    if pairs != [] {
      var (pat, rep) := pairs[0];
      ReplaceNoLonger(s, pat, rep);
      ReplaceNonEmpty(s, pat, rep);
      if ',' !in s {
        ReplaceKeepsOut(s, pat, rep, ',');
      }
      ReplaceAllShape(Replace(s, pat, rep), pairs[1..]);
    }
  }

  /** An address with none of the long forms is left as it is. */
  lemma {:induction false} ReplaceAllAbsent(s: string, pairs: seq<(string, string)>)
    requires Abbreviations(pairs)
    requires forall i :: 0 <= i < |pairs| ==> !Contains(s, pairs[i].0)
    ensures ReplaceAll(s, pairs) == s
    decreases |pairs|
  {
    if pairs != [] {
      ReplaceAbsent(s, pairs[0].0, pairs[0].1);
      forall i | 0 <= i < |pairs| - 1 ensures !Contains(s, pairs[1..][i].0) {
        assert pairs[1..][i] == pairs[i + 1];
      }
      ReplaceAllAbsent(s, pairs[1..]);
    }
  }

  /** `[p.strip() for p in parts]` */
  function StripEach(parts: seq<string>): (r: seq<string>)
    ensures |r| == |parts|
    ensures forall k :: 0 <= k < |r| ==> r[k] == Strip(parts[k])
  {
    seq(|parts|, k requires 0 <= k < |parts| => Strip(parts[k]))
  }

  /** `(left[:max_len-3] + "…") if len(left) > max_len else left` */
  function ShortenStreet(left: string, maxLen: int): string {
    if |left| > maxLen then SliceTo(left, maxLen - 3) + [Ellipsis] else left
  }

  /** `abbreviate_address(addr, max_len)` with the suffix table `pairs`.
      The label is empty exactly when the address is. */
  function Label(pairs: seq<(string, string)>, addr: string, maxLen: int): (r: string)
    requires Abbreviations(pairs)
    ensures r == "" <==> addr == ""
  {
    if addr == "" then ""
    else
      var a := ReplaceAll(addr, pairs);
      ReplaceAllShape(addr, pairs);
      if |a| <= maxLen then a
      else
        var parts := Split(a, ',');
        if |parts| >= 2 then
          ShortenStreet(Strip(parts[0]), maxLen) + ", " + Join(StripEach(parts[1..]), ", ")
        else
          SliceTo(a, maxLen - 1) + [Ellipsis]
  }

  /** The replacement loop of `abbreviate_address`. */
  method ReplaceEach(addr: string, pairs: seq<(string, string)>) returns (a: string)
    requires Abbreviations(pairs)
    ensures a == ReplaceAll(addr, pairs)
  {
    a := addr;
    for i := 0 to |pairs|
      invariant Abbreviations(pairs[i..])
      invariant ReplaceAll(a, pairs[i..]) == ReplaceAll(addr, pairs)
    {
      assert pairs[i..][1..] == pairs[i + 1..];
      a := Replace(a, pairs[i].0, pairs[i].1);
    }
  }

  /** `abbreviate_address(addr, max_len)`: the suffix loop, then the
      length checks. */
  method AbbreviateAddress(addr: string, maxLen: int) returns (r: string)
    ensures r == Label(Suffixes, addr, maxLen)
  {
    if addr == "" {
      return "";
    }
    SuffixesAbbreviate();
    var a := ReplaceEach(addr, Suffixes);
    if |a| <= maxLen {
      return a;
    }
    var parts := Split(a, ',');
    if |parts| >= 2 {
      var left := Strip(parts[0]);
      var right := Join(StripEach(parts[1..]), ", ");
      left := if |left| > maxLen then SliceTo(left, maxLen - 3) + [Ellipsis] else left;
      return left + ", " + right;
    }
    return SliceTo(a, maxLen - 1) + [Ellipsis];
  }

  /** An address that fits once abbreviated is shown whole (abbreviated),
      and one with none of the long forms that fits is shown unchanged. */
  lemma LabelFits(pairs: seq<(string, string)>, addr: string, maxLen: int)
    requires Abbreviations(pairs)
    requires |ReplaceAll(addr, pairs)| <= maxLen
    ensures Label(pairs, addr, maxLen) == ReplaceAll(addr, pairs)
    ensures (forall i :: 0 <= i < |pairs| ==> !Contains(addr, pairs[i].0)) ==>
              Label(pairs, addr, maxLen) == addr
  {
    ReplaceAllShape(addr, pairs);
    if forall i :: 0 <= i < |pairs| ==> !Contains(addr, pairs[i].0) {
      ReplaceAllAbsent(addr, pairs);
    }
  }

  /** Without a comma, the label never exceeds `max_len`; one too long is
      cut to exactly `max_len` characters, the last being "…", keeping
      the start of the abbreviated address. */
  lemma LabelCut(pairs: seq<(string, string)>, addr: string, maxLen: int)
    requires Abbreviations(pairs)
    requires ',' !in addr && maxLen >= 1
    ensures |Label(pairs, addr, maxLen)| <= maxLen
    ensures |ReplaceAll(addr, pairs)| > maxLen ==>
              |Label(pairs, addr, maxLen)| == maxLen && Label(pairs, addr, maxLen)[maxLen - 1] == Ellipsis &&
              Label(pairs, addr, maxLen)[..maxLen - 1] == ReplaceAll(addr, pairs)[..maxLen - 1]
  {
    ReplaceAllShape(addr, pairs);
    var a := ReplaceAll(addr, pairs);
    if addr != "" && |a| > maxLen {
      SplitCount(a, ',');
      var r := SliceTo(a, maxLen - 1) + [Ellipsis];
      assert Label(pairs, addr, maxLen) == r;
      assert r[..maxLen - 1] == SliceTo(a, maxLen - 1);
    }
  }

  /** With a comma, a label too long keeps every stripped piece after the
      first comma in full, after the stripped street part: whole when it
      fits in `max_len`, otherwise its first `max_len - 3` characters and
      "…"; either way at most `max_len` characters (for `max_len` of at
      least 3). */
  lemma LabelKeepsCity(pairs: seq<(string, string)>, addr: string, maxLen: int, k: int)
    requires Abbreviations(pairs)
    requires maxLen >= 3
    requires |ReplaceAll(addr, pairs)| > maxLen && ',' in ReplaceAll(addr, pairs)
    requires 1 <= k < |Split(ReplaceAll(addr, pairs), ',')|
    ensures exists i :: OccursAt(Label(pairs, addr, maxLen), Strip(Split(ReplaceAll(addr, pairs), ',')[k]), i)
    ensures exists left :: |left| <= maxLen &&
              Label(pairs, addr, maxLen) == left + ", " + Join(StripEach(Split(ReplaceAll(addr, pairs), ',')[1..]), ", ")
    ensures var street := Strip(Split(ReplaceAll(addr, pairs), ',')[0]);
            var right := Join(StripEach(Split(ReplaceAll(addr, pairs), ',')[1..]), ", ");
            && (|street| <= maxLen ==> Label(pairs, addr, maxLen) == street + ", " + right)
            && (|street| > maxLen ==> Label(pairs, addr, maxLen) == street[..maxLen - 3] + [Ellipsis] + ", " + right)
  {
    var a := ReplaceAll(addr, pairs);
    var parts := Split(a, ',');
    SplitCount(a, ',');
    ReplaceAllShape(addr, pairs);
    var left := ShortenStreet(Strip(parts[0]), maxLen);
    var pieces := StripEach(parts[1..]);
    var right := Join(pieces, ", ");
    assert Label(pairs, addr, maxLen) == (left + ", ") + right;
    ShortenStreetLength(Strip(parts[0]), maxLen);
    JoinContains(pieces, ", ", k - 1);
    var j :| OccursAt(right, pieces[k - 1], j);
    OccursAfter(left + ", ", right, pieces[k - 1], j);
  }

  /** A street part cut for `max_len` of at least 3 fits in `max_len`. */
  lemma ShortenStreetLength(left: string, maxLen: int)
    requires maxLen >= 3
    ensures |ShortenStreet(left, maxLen)| <= maxLen
  {
  }

  /** An occurrence in `s` is an occurrence in `pre + s`, shifted. */
  lemma OccursAfter(pre: string, s: string, n: string, j: int)
    requires OccursAt(s, n, j)
    ensures OccursAt(pre + s, n, |pre| + j)
  {
    assert (pre + s)[|pre| + j..|pre| + j + |n|] == s[j..j + |n|];
  }

  /** Each part occurs in the joined string. */
  lemma {:induction false} JoinContains(parts: seq<string>, sep: string, k: int)
    requires 0 <= k < |parts|
    ensures exists i :: OccursAt(Join(parts, sep), parts[k], i)
    decreases |parts|
  {
    var j := Join(parts, sep);
    if |parts| == 1 {
      assert OccursAt(j, parts[0], 0);
    } else if k == 0 {
      assert j[..|parts[0]|] == parts[0];
      assert OccursAt(j, parts[0], 0);
    } else {
      JoinContains(parts[1..], sep, k - 1);
      var rest := Join(parts[1..], sep);
      var i :| OccursAt(rest, parts[1..][k - 1], i);
      var off := |parts[0]| + |sep|;
      assert j == parts[0] + sep + rest;
      assert j[off + i..off + i + |parts[k]|] == rest[i..i + |parts[k]|];
      assert OccursAt(j, parts[k], off + i);
    }
  }
}
