/** Terminology: the process-wide cache of resolved ValueSets and of the codes
    each one lists, and the random choice of a code from a cached ValueSet. */
module Terminologies {
  import opened Util
  import opened Concepts
  import opened ValueSetResolver

  /** The code a concept reference contributes; a missing display becomes "". */
  function ConceptCode(system: string, c: Concept): Code {
    Code(system, c.code, match c.display case Some(d) => d case None => "")
  }

  /** The codes of the concepts of one include block, in order. */
  function ConceptCodes(system: string, concepts: seq<Concept>): (r: seq<Code>)
    ensures |r| == |concepts|
  {
    if concepts == [] then []
    else ConceptCodes(system, concepts[..|concepts| - 1]) + [ConceptCode(system, concepts[|concepts| - 1])]
  }

  /** The codes of all include blocks, block by block, concept by concept. */
  function Flatten(includes: seq<Include>): seq<Code> {
    if includes == [] then []
    else
      var last := includes[|includes| - 1];
      Flatten(includes[..|includes| - 1]) + ConceptCodes(last.system, last.concepts)
  }

  lemma {:induction false} ConceptCodesAt(system: string, concepts: seq<Concept>, j: nat)
    requires j < |concepts|
    ensures ConceptCodes(system, concepts)[j] == ConceptCode(system, concepts[j])
  {
    if j < |concepts| - 1 {
      ConceptCodesAt(system, concepts[..|concepts| - 1], j);
    }
  }

  /** Flattening keeps block order: the codes of `a + b` are those of `a`
      followed by those of `b`. */
  lemma {:induction false} FlattenAppend(a: seq<Include>, b: seq<Include>)
    ensures Flatten(a + b) == Flatten(a) + Flatten(b)
  {
    if b == [] {
      assert a + b == a;
    } else {
      assert (a + b)[..|a + b| - 1] == a + b[..|b| - 1];
      FlattenAppend(a, b[..|b| - 1]);
    }
  }

  /** Every cached code comes from some concept of some include block, with the
      block's system, the concept's code and its display or "". */
  lemma {:induction false} FlattenSound(includes: seq<Include>, c: Code)
    requires c in Flatten(includes)
    ensures exists i, j :: 0 <= i < |includes| && 0 <= j < |includes[i].concepts|
                           && c == ConceptCode(includes[i].system, includes[i].concepts[j])
  {
    var n := |includes| - 1;
    var init := includes[..n];
    var last := includes[n];
    var tail := ConceptCodes(last.system, last.concepts);
    if c in tail {
      var j :| 0 <= j < |tail| && tail[j] == c;
      ConceptCodesAt(last.system, last.concepts, j);
    } else {
      FlattenSound(init, c);
      var i, j :| 0 <= i < |init| && 0 <= j < |init[i].concepts|
                  && c == ConceptCode(init[i].system, init[i].concepts[j]);
      assert init[i] == includes[i];
    }
  }

  /** Every concept of every include block contributes its code. */
  lemma {:induction false} FlattenComplete(includes: seq<Include>, i: nat, j: nat)
    requires i < |includes| && j < |includes[i].concepts|
    ensures ConceptCode(includes[i].system, includes[i].concepts[j]) in Flatten(includes)
  {
    var n := |includes| - 1;
    var init := includes[..n];
    var last := includes[n];
    if i == n {
      ConceptCodesAt(last.system, last.concepts, j);
      assert ConceptCodes(last.system, last.concepts)[j] == ConceptCode(last.system, last.concepts[j]);
    } else {
      assert init[i] == includes[i];
      FlattenComplete(init, i, j);
    }
  }

  /** The cached codes are exactly the codes of the concepts of the include blocks. */
  lemma FlattenCodes(includes: seq<Include>, c: Code)
    ensures c in Flatten(includes) <==>
              exists i, j :: 0 <= i < |includes| && 0 <= j < |includes[i].concepts|
                             && c == ConceptCode(includes[i].system, includes[i].concepts[j])
  {
    if c in Flatten(includes) {
      FlattenSound(includes, c);
    }
    if exists i, j :: 0 <= i < |includes| && 0 <= j < |includes[i].concepts|
                      && c == ConceptCode(includes[i].system, includes[i].concepts[j]) {
      var i, j :| 0 <= i < |includes| && 0 <= j < |includes[i].concepts|
                  && c == ConceptCode(includes[i].system, includes[i].concepts[j]);
      FlattenComplete(includes, i, j);
    }
  }

  /** A ValueSet with a single include block yields codes of that block's system only. */
  lemma SingleIncludeSystem(inc: Include, c: Code)
    requires c in Flatten([inc])
    ensures c.system == inc.system && exists j :: 0 <= j < |inc.concepts| && c.code == inc.concepts[j].code
  {
    FlattenCodes([inc], c);
  }

  /** Whether the resolver finds a ValueSet for `url`. */
  predicate Resolves(url: string, bundle: seq<ValueSetDoc>) {
    GetValueSet(Some(url), bundle).Some?
  }

  /** The ValueSet the resolver finds for a url it resolves. */
  function Resolved(url: string, bundle: seq<ValueSetDoc>): (vset: ValueSetDoc)
    requires Resolves(url, bundle)
    ensures GetValueSet(Some(url), bundle) == Some(vset)
  {
    GetValueSet(Some(url), bundle).value
  }

  /** Index of the first url from `i` on that the bundle cannot resolve, or `|urls|`. */
  function FirstUnresolved(urls: seq<string>, bundle: seq<ValueSetDoc>, i: nat): (k: nat)
    requires i <= |urls|
    ensures i <= k <= |urls|
    ensures forall m :: i <= m < k ==> Resolves(urls[m], bundle)
    ensures k < |urls| ==> !Resolves(urls[k], bundle)
    decreases |urls| - i
  {
    if i == |urls| then i
    else if !Resolves(urls[i], bundle) then i
    else FirstUnresolved(urls, bundle, i + 1)
  }

  /** The first unresolved url from `i` on is `k` when every url in between
      resolves and `k` is the end or does not resolve. */
  lemma {:induction false} FirstUnresolvedAt(urls: seq<string>, bundle: seq<ValueSetDoc>, i: nat, k: nat)
    requires i <= k <= |urls|
    requires forall m :: i <= m < k ==> Resolves(urls[m], bundle)
    requires k < |urls| ==> !Resolves(urls[k], bundle)
    ensures FirstUnresolved(urls, bundle, i) == k
    decreases k - i
  {
    if i < k {
      FirstUnresolvedAt(urls, bundle, i + 1, k);
    }
  }

  /** The two caches, as a pair of maps. */
  datatype Caches = Caches(valuesetLookup: map<string, ValueSetDoc>, codesLookup: map<string, seq<Code>>)

  /** The caches after loading `urls` in order, every one of which resolves. */
  function Loaded(c: Caches, urls: seq<string>, bundle: seq<ValueSetDoc>): Caches
    requires forall m :: 0 <= m < |urls| ==> Resolves(urls[m], bundle)
  {
    if urls == [] then c
    else
      var url := urls[|urls| - 1];
      var c' := Loaded(c, urls[..|urls| - 1], bundle);
      var vset := Resolved(url, bundle);
      Caches(c'.valuesetLookup[url := vset], c'.codesLookup[url := Flatten(vset.includes)])
  }

  /** One step of the load: the last url's ValueSet and codes go in on top of
      what the earlier urls left. */
  lemma LoadedStep(c: Caches, urls: seq<string>, bundle: seq<ValueSetDoc>, i: nat)
    requires i < |urls| && forall m :: 0 <= m <= i ==> Resolves(urls[m], bundle)
    ensures var before := Loaded(c, urls[..i], bundle);
            var vset := Resolved(urls[i], bundle);
            Loaded(c, urls[..i + 1], bundle)
              == Caches(before.valuesetLookup[urls[i] := vset], before.codesLookup[urls[i] := Flatten(vset.includes)])
  {
    assert urls[..i + 1][..i] == urls[..i];
  }

  /** After loading, each loaded url maps to the ValueSet the resolver finds for
      it and to exactly that ValueSet's codes: a url loaded twice keeps one copy
      of its codes, not two. */
  lemma {:induction false} LoadedLookup(c: Caches, urls: seq<string>, bundle: seq<ValueSetDoc>, url: string)
    requires forall m :: 0 <= m < |urls| ==> Resolves(urls[m], bundle)
    requires url in urls
    ensures var l := Loaded(c, urls, bundle);
            && url in l.valuesetLookup && GetValueSet(Some(url), bundle) == Some(l.valuesetLookup[url])
            && url in l.codesLookup && l.codesLookup[url] == Flatten(l.valuesetLookup[url].includes)
  {
    var init := urls[..|urls| - 1];
    if url != urls[|urls| - 1] {
      var m :| 0 <= m < |urls| && urls[m] == url;
      assert init[m] == url;
      LoadedLookup(c, init, bundle, url);
    }
  }

  /** Urls not being loaded keep whatever the caches held for them. */
  lemma {:induction false} LoadedFrame(c: Caches, urls: seq<string>, bundle: seq<ValueSetDoc>, url: string)
    requires forall m :: 0 <= m < |urls| ==> Resolves(urls[m], bundle)
    requires url !in urls
    ensures var l := Loaded(c, urls, bundle);
            && (url in l.valuesetLookup <==> url in c.valuesetLookup)
            && (url in c.valuesetLookup ==> l.valuesetLookup[url] == c.valuesetLookup[url])
            && (url in l.codesLookup <==> url in c.codesLookup)
            && (url in c.codesLookup ==> l.codesLookup[url] == c.codesLookup[url])
  {
    if urls != [] {
      var init := urls[..|urls| - 1];
      assert forall k :: 0 <= k < |init| ==> init[k] == urls[k];
      LoadedFrame(c, init, bundle, url);
    }
  }

  lemma MapOverwrite<K, V>(m: map<K, V>, k: K, a: V, b: V)
    ensures m[k := a][k := b] == m[k := b]
  {
  }

  /** The static state of `Terminology`. */
  class Terminology {
    var valuesetLookup: map<string, ValueSetDoc>
    var codesLookup: map<string, seq<Code>>

    function Lookups(): Caches
      reads this
    {
      Caches(valuesetLookup, codesLookup)
    }

    constructor ()
      ensures valuesetLookup == map[] && codesLookup == map[]
    {
      valuesetLookup := map[];
      codesLookup := map[];
    }

    /** `loadValueSets`: resolves each url in turn (the set's iteration order is
        the order of `urls`) and caches the ValueSet and its codes. The first url
        that does not resolve stops the load with an exception naming it; the
        urls before it stay loaded. */
    method LoadValueSets(urls: seq<string>, bundle: seq<ValueSetDoc>) returns (r: Result<()>)
      modifies this
      ensures var k := FirstUnresolved(urls, bundle, 0);
              && (k == |urls| <==> r.Ok?)
              && (k < |urls| ==> r == Err(RuntimeException("Could not resolve ValueSet " + urls[k])))
              && Lookups() == Loaded(old(Lookups()), urls[..k], bundle)
    {
      ghost var start := Caches(valuesetLookup, codesLookup);
      var i := 0;
      while i < |urls|
        invariant 0 <= i <= |urls|
        invariant forall m :: 0 <= m < i ==> Resolves(urls[m], bundle)
        invariant Caches(valuesetLookup, codesLookup) == Loaded(start, urls[..i], bundle)
      {
        var url := urls[i];
        var vset := GetValueSet(Some(url), bundle);
        if vset.None? {
          FirstUnresolvedAt(urls, bundle, 0, i);
          return Err(RuntimeException("Could not resolve ValueSet " + url));
        }
        ghost var before := Caches(valuesetLookup, codesLookup);
        valuesetLookup := valuesetLookup[url := vset.value];
        codesLookup := codesLookup[url := []];
        ghost var emptied := codesLookup;
        ghost var codes := Flatten(vset.value.includes);
        AddIncludeCodes(url, vset.value.includes);
        assert [] + codes == codes;
        MapOverwrite(before.codesLookup, url, [], codes);
        LoadedStep(start, urls, bundle, i);
        i := i + 1;
      }
      assert urls[..i] == urls;
      FirstUnresolvedAt(urls, bundle, 0, i);
      r := Ok(());
    }

    /** The include loops of `loadValueSets`: each concept of each include block,
        in order, is appended as a code to the list cached for `url`. */
    method AddIncludeCodes(url: string, includes: seq<Include>)
      requires url in codesLookup
      modifies this
      ensures valuesetLookup == old(valuesetLookup)
      ensures codesLookup == old(codesLookup)[url := old(codesLookup)[url] + Flatten(includes)]
    {
      ghost var prefix := codesLookup[url];
      var b := 0;
      assert includes[..0] == [];
      assert prefix + Flatten(includes[..0]) == prefix;
      while b < |includes|
        invariant 0 <= b <= |includes|
        invariant valuesetLookup == old(valuesetLookup)
        invariant codesLookup == old(codesLookup)[url := prefix + Flatten(includes[..b])]
      {
        var system := includes[b].system;
        var concepts := includes[b].concepts;
        ghost var done := prefix + Flatten(includes[..b]);
        var j := 0;
        assert concepts[..0] == [];
        assert done + ConceptCodes(system, concepts[..0]) == done;
        while j < |concepts|
          invariant 0 <= j <= |concepts|
          invariant valuesetLookup == old(valuesetLookup)
          invariant codesLookup == old(codesLookup)[url := done + ConceptCodes(system, concepts[..j])]
        {
          var display := if concepts[j].display.Some? then concepts[j].display.value else "";
          var code := Code(system, concepts[j].code, display);
          codesLookup := codesLookup[url := codesLookup[url] + [code]];
          assert concepts[..j + 1][..j] == concepts[..j];
          assert ConceptCodes(system, concepts[..j + 1]) == ConceptCodes(system, concepts[..j]) + [code];
          assert done + ConceptCodes(system, concepts[..j + 1]) == done + ConceptCodes(system, concepts[..j]) + [code];
          j := j + 1;
        }
        assert concepts[..j] == concepts;
        assert includes[..b + 1][..b] == includes[..b];
        assert Flatten(includes[..b + 1]) == Flatten(includes[..b]) + ConceptCodes(system, concepts);
        assert prefix + Flatten(includes[..b + 1]) == done + ConceptCodes(system, concepts);
        b := b + 1;
      }
      assert includes[..b] == includes;
    }

    /** `getRandomCode`: a url that was never loaded has no list (a null
        dereference), an empty list makes `nextInt(0)` throw, and otherwise the
        code at the drawn index is returned. `nextInt` stands for the shared
        random generator. */
    method GetRandomCode(valuesetUrl: string, nextInt: int -> int) returns (r: Result<Code>)
      requires forall n :: n > 0 ==> 0 <= nextInt(n) < n
      ensures valuesetUrl !in codesLookup ==> r == Err(NullPointerException)
      ensures valuesetUrl in codesLookup && codesLookup[valuesetUrl] == [] ==> r == Err(IllegalArgumentException)
      ensures valuesetUrl in codesLookup && codesLookup[valuesetUrl] != [] ==>
                r == Ok(codesLookup[valuesetUrl][nextInt(|codesLookup[valuesetUrl]|)])
      ensures r.Ok? ==> r.value in codesLookup[valuesetUrl]
    {
      if valuesetUrl !in codesLookup {
        return Err(NullPointerException);
      }
      var codes := codesLookup[valuesetUrl];
      if |codes| == 0 {
        return Err(IllegalArgumentException);
      }
      r := Ok(codes[nextInt(|codes|)]);
    }
  }

  /** After a successful load, a random code of any loaded url belongs to the
      ValueSet the resolver found for that url. */
  lemma RandomCodeOfLoaded(c: Caches, urls: seq<string>, bundle: seq<ValueSetDoc>, url: string, code: Code)
    requires forall m :: 0 <= m < |urls| ==> Resolves(urls[m], bundle)
    requires url in urls && url in Loaded(c, urls, bundle).codesLookup
    requires code in Loaded(c, urls, bundle).codesLookup[url]
    ensures exists i, j :: var includes := Resolved(url, bundle).includes;
              0 <= i < |includes| && 0 <= j < |includes[i].concepts|
              && code == ConceptCode(includes[i].system, includes[i].concepts[j])
  {
    LoadedLookup(c, urls, bundle, url);
    FlattenCodes(Resolved(url, bundle).includes, code);
  }
}
