/** ValueSetResolver: extracting the OID embedded in an identifier string, and
    looking a ValueSet up by the OID of its first identifier. The loaded bundle is
    an input sequence; reading it from disk is not part of this model. */
module ValueSetResolver {
  import opened Util

  /** The strings OID_REGEX `([0-9]+\.)+[0-9]+` matches as a whole: digits and
      dots only, a digit at each end, at least one dot, never two dots in a row. */
  predicate IsOid(t: string) {
    && |t| > 0
    && IsDigit(t[0]) && IsDigit(t[|t| - 1])
    && (forall k :: 0 <= k < |t| ==> IsDigit(t[k]) || t[k] == '.')
    && (exists k :: 0 <= k < |t| && t[k] == '.')
    && (forall k :: 0 <= k < |t| - 1 ==> !(t[k] == '.' && t[k + 1] == '.'))
  }

  /** End of the longest run of digits that starts at `i`. */
  function DigitsEnd(s: string, i: nat): (j: nat)
    requires i <= |s|
    ensures i <= j <= |s|
    ensures forall k :: i <= k < j ==> IsDigit(s[k])
    ensures j == |s| || !IsDigit(s[j])
    decreases |s| - i
  {
    if i < |s| && IsDigit(s[i]) then DigitsEnd(s, i + 1) else i
  }

  /** A dot followed by a digit stands at `j`: one more `[0-9]+\.` group fits. */
  predicate DotDigitAt(s: string, j: nat) {
    j + 1 < |s| && s[j] == '.' && IsDigit(s[j + 1])
  }

  /** End of the chain of digit groups, joined by single dots, whose first group
      starts at `i`: how far the greedy regex reaches from `i`. */
  function ChainEnd(s: string, i: nat): (q: nat)
    requires i < |s| && IsDigit(s[i])
    ensures i < q <= |s| && IsDigit(s[q - 1])
    ensures forall k :: i <= k < q ==> IsDigit(s[k]) || s[k] == '.'
    ensures forall k :: i <= k < q - 1 ==> !(s[k] == '.' && s[k + 1] == '.')
    ensures q == |s| || !IsDigit(s[q])
    ensures !DotDigitAt(s, q)
    decreases |s| - i
  {
    var j := DigitsEnd(s, i);
    if DotDigitAt(s, j) then ChainEnd(s, j + 1) else j
  }

  /** The end of the regex match that starts at `i`, if there is one: the chain
      must hold at least two groups. */
  function MatchAt(s: string, i: nat): Option<nat>
    requires i <= |s|
  {
    if i < |s| && IsDigit(s[i]) && DotDigitAt(s, DigitsEnd(s, i)) then Some(ChainEnd(s, i)) else None
  }

  /** `Matcher.find()` from position `i`: the first start position with a match. */
  function FindFrom(s: string, i: nat): (r: Option<(nat, nat)>)
    requires i <= |s|
    ensures r.Some? ==> i <= r.value.0 <= |s| && MatchAt(s, r.value.0) == Some(r.value.1)
    ensures r.Some? ==> forall p :: i <= p < r.value.0 ==> MatchAt(s, p).None?
    ensures r.None? ==> forall p :: i <= p <= |s| ==> MatchAt(s, p).None?
    decreases |s| - i
  {
    if i == |s| then None
    else match MatchAt(s, i)
      case Some(q) => Some((i, q))
      case None => FindFrom(s, i + 1)
  }

  lemma MatchAtSound(s: string, i: nat)
    requires i <= |s| && MatchAt(s, i).Some?
    ensures i <= MatchAt(s, i).value <= |s| && IsOid(s[i..MatchAt(s, i).value])
  {
    var q := MatchAt(s, i).value;
    var j := DigitsEnd(s, i);
    var t := s[i..q];
    assert q == ChainEnd(s, j + 1);
    assert t[j - i] == s[j] == '.';
    forall k | 0 <= k < |t|
      ensures IsDigit(t[k]) || t[k] == '.'
    {
      assert t[k] == s[i + k];
    }
    forall k | 0 <= k < |t| - 1
      ensures !(t[k] == '.' && t[k + 1] == '.')
    {
      assert t[k] == s[i + k] && t[k + 1] == s[i + k + 1];
    }
  }

  /** Nothing longer than the match starting at `i` is an OID. */
  lemma MatchAtLongest(s: string, i: nat, q': nat)
    requires i <= |s| && MatchAt(s, i).Some? && MatchAt(s, i).value < q' <= |s|
    ensures !IsOid(s[i..q'])
  {
    var q := MatchAt(s, i).value;
    var t := s[i..q'];
    assert t[q - i] == s[q];
    if q' == q + 1 {
      assert t[|t| - 1] == s[q];
    } else {
      assert t[q + 1 - i] == s[q + 1];
    }
  }

  /** No OID starts where the regex finds no match. */
  lemma MatchAtComplete(s: string, i: nat, q': nat)
    requires i <= q' <= |s| && MatchAt(s, i).None?
    ensures !IsOid(s[i..q'])
  {
    var t := s[i..q'];
    if i < q' && IsDigit(s[i]) {
      var j := DigitsEnd(s, i);
      if q' <= j {
        assert forall k :: 0 <= k < |t| ==> t[k] == s[i + k];
      } else {
        assert t[j - i] == s[j];
        if q' == j + 1 {
          assert t[|t| - 1] == s[j];
        } else {
          assert t[j + 1 - i] == s[j + 1];
        }
      }
    } else if i < q' {
      assert t[0] == s[i];
    }
  }

  /** `matchOid`: null for null, else the first match of OID_REGEX, if any. */
  function MatchOid(input: Option<string>): (r: Option<string>)
    ensures input.None? ==> r.None?
    ensures r.Some? ==> IsOid(r.value)
  {
    match input
    case None => None
    case Some(s) =>
      match FindFrom(s, 0)
      case None => None
      case Some((p, q)) => MatchAtSound(s, p); Some(s[p..q])
  }

  /** An OID occupies `s[p..q]`, none starts further left, and none starting at
      `p` is longer. */
  ghost predicate LeftmostLongest(s: string, p: nat, q: nat) {
    && p <= q <= |s| && IsOid(s[p..q])
    && (forall p', q' :: 0 <= p' < p && p' <= q' <= |s| ==> !IsOid(s[p'..q']))
    && (forall q' :: q < q' <= |s| ==> !IsOid(s[p..q']))
  }

  /** What `find()` followed by `group(0)` returns: no result exactly when no
      substring is an OID, and otherwise the leftmost, longest one. */
  lemma MatchOidLeftmostLongest(s: string)
    ensures MatchOid(Some(s)).None? <==> forall p, q :: 0 <= p <= q <= |s| ==> !IsOid(s[p..q])
    ensures MatchOid(Some(s)).Some? ==>
              exists p: nat, q: nat :: LeftmostLongest(s, p, q) && MatchOid(Some(s)).value == s[p..q]
  {
    match FindFrom(s, 0)
    case None =>
      forall p, q | 0 <= p <= q <= |s| ensures !IsOid(s[p..q]) {
        MatchAtComplete(s, p, q);
      }
    case Some((p, q)) =>
      MatchAtSound(s, p);
      forall p', q' | 0 <= p' < p && p' <= q' <= |s| ensures !IsOid(s[p'..q']) {
        MatchAtComplete(s, p', q');
      }
      forall q' | q < q' <= |s| ensures !IsOid(s[p..q']) {
        MatchAtLongest(s, p, q');
      }
      assert LeftmostLongest(s, p, q);
  }

  /** The leftmost-longest occurrence is unique, so the lemma above pins the
      result down. */
  lemma LeftmostLongestUnique(s: string, p: nat, q: nat, p': nat, q': nat)
    requires LeftmostLongest(s, p, q) && LeftmostLongest(s, p', q')
    ensures p == p' && q == q'
  {
  }

  /** An OID is found whole in itself: applying `matchOid` to its own result
      changes nothing. */
  lemma MatchOidIdempotent(input: Option<string>)
    ensures MatchOid(MatchOid(input)) == MatchOid(input)
  {
    if MatchOid(input).Some? {
      var t := MatchOid(input).value;
      assert t[0..|t|] == t;
      if MatchAt(t, 0).None? {
        MatchAtComplete(t, 0, |t|);
      }
      var q := MatchAt(t, 0).value;
      if q < |t| {
        MatchAtLongest(t, 0, |t|);
      }
    }
  }

  datatype Concept = Concept(code: string, display: Option<string>)

  /** One `compose.include` block: a coding system and its listed concepts. */
  datatype Include = Include(system: string, concepts: seq<Concept>)

  /** A FHIR ValueSet as the resolver and the terminology cache read it: the value
      of its first identifier (possibly absent) and its include blocks. */
  datatype ValueSetDoc = ValueSetDoc(identifier: Option<string>, includes: seq<Include>)

  /** The test in `getValueSet`'s loop: the entry's OID exists and equals the query's. */
  predicate Matches(doc: ValueSetDoc, desired: Option<string>) {
    var known := MatchOid(doc.identifier);
    known.Some? && known == desired
  }

  /** Index of the first entry from `i` on that matches. */
  function FirstMatch(desired: Option<string>, bundle: seq<ValueSetDoc>, i: nat): (r: Option<nat>)
    requires i <= |bundle|
    ensures r.Some? ==> i <= r.value < |bundle| && Matches(bundle[r.value], desired)
    ensures r.Some? ==> forall k :: i <= k < r.value ==> !Matches(bundle[k], desired)
    ensures r.None? ==> forall k :: i <= k < |bundle| ==> !Matches(bundle[k], desired)
    decreases |bundle| - i
  {
    if i == |bundle| then None
    else if Matches(bundle[i], desired) then Some(i)
    else FirstMatch(desired, bundle, i + 1)
  }

  /** `getValueSet`: the first entry, in bundle order, whose identifier's OID
      equals the OID extracted from the query; null when there is none. */
  function GetValueSet(oid: Option<string>, bundle: seq<ValueSetDoc>): (r: Option<ValueSetDoc>)
    ensures r.Some? ==> exists k :: 0 <= k < |bundle| && bundle[k] == r.value
                          && Matches(bundle[k], MatchOid(oid))
                          && forall k' :: 0 <= k' < k ==> !Matches(bundle[k'], MatchOid(oid))
    ensures r.None? <==> forall k :: 0 <= k < |bundle| ==> !Matches(bundle[k], MatchOid(oid))
  {
    match FirstMatch(MatchOid(oid), bundle, 0)
    case None => None
    case Some(k) => Some(bundle[k])
  }

  /** A query without an OID (null included) finds nothing. */
  lemma GetValueSetWithoutOid(oid: Option<string>, bundle: seq<ValueSetDoc>)
    requires MatchOid(oid).None?
    ensures GetValueSet(oid, bundle).None?
  {
  }

  /** What a found ValueSet has in common with the query: the same embedded OID. */
  lemma GetValueSetSameOid(oid: Option<string>, bundle: seq<ValueSetDoc>)
    requires GetValueSet(oid, bundle).Some?
    ensures MatchOid(oid).Some?
    ensures MatchOid(GetValueSet(oid, bundle).value.identifier) == MatchOid(oid)
  {
  }

  /** The test fixtures store `matchOid(url)` as a ValueSet's identifier and later
      look it up by `url`; with no earlier entry for that OID the lookup finds it. */
  lemma FixtureLookup(url: string, doc: ValueSetDoc, before: seq<ValueSetDoc>, after: seq<ValueSetDoc>)
    requires MatchOid(Some(url)).Some? && doc.identifier == MatchOid(Some(url))
    requires forall k :: 0 <= k < |before| ==> !Matches(before[k], MatchOid(Some(url)))
    ensures GetValueSet(Some(url), before + [doc] + after) == Some(doc)
  {
    var bundle := before + [doc] + after;
    MatchOidIdempotent(Some(url));
    assert Matches(bundle[|before|], MatchOid(Some(url)));
    var k :| 0 <= k < |bundle| && bundle[k] == GetValueSet(Some(url), bundle).value
             && Matches(bundle[k], MatchOid(Some(url)))
             && forall k' :: 0 <= k' < k ==> !Matches(bundle[k'], MatchOid(Some(url)));
    assert k == |before|;
  }
}
