/** Search results: one playable release a source, best first. */
module Candidates {
  import opened Wrappers
  import opened StableSort
  import opened TextOrder

  datatype Kind = Release | Trailer

  datatype Candidate = Candidate(
    provider: string,
    source: string,
    kind: Kind,
    title: string,
    quality: string,
    translation: string,
    season: Option<int>,
    episode: Option<int>,
    pageUrl: string,
    sourceUrl: string,
    height: int,
    bitrate: real,
    order: int)

  /** The library normalizations of addresses and of words. */
  datatype Norms = Norms(url: string -> string, text: string -> string)

  datatype Key = Key(url: string, quality: string, translation: string, title: string, season: Option<int>, episode: Option<int>)

  function KeyOf(c: Candidate, norms: Norms): Key {
    Key(norms.url(if c.sourceUrl != "" then c.sourceUrl else c.pageUrl),
        norms.text(c.quality), norms.text(c.translation), norms.text(c.title), c.season, c.episode)
  }

  predicate Playable(c: Candidate) {
    c.kind == Release && (c.sourceUrl != "" || c.pageUrl != "")
  }

  /** Ranks compare by order, then height and bitrate downwards, then provider and source. */
  predicate RankLe(a: Candidate, b: Candidate) {
    if a.order != b.order then a.order < b.order
    else if a.height != b.height then a.height > b.height
    else if a.bitrate != b.bitrate then a.bitrate > b.bitrate
    else if a.provider != b.provider then TextLe(a.provider, b.provider)
    else TextLe(a.source, b.source)
  }

  predicate SameRank(a: Candidate, b: Candidate) {
    a.order == b.order && a.height == b.height && a.bitrate == b.bitrate
    && a.provider == b.provider && a.source == b.source
  }

  lemma RankIsTotal(a: Candidate, b: Candidate)
    ensures RankLe(a, b) || RankLe(b, a)
    ensures RankLe(a, b) && RankLe(b, a) <==> SameRank(a, b)
  {
    TextLeTotal(a.provider, b.provider);
    TextLeTotal(a.source, b.source);
  }

  /** What ranks first: the lower order; then the greater height; then the higher bitrate; then the provider
      and the source that sort first. */
  lemma RankPrefers(a: Candidate, b: Candidate)
    ensures a.order < b.order ==> !RankLe(b, a)
    ensures a.order == b.order && a.height > b.height ==> !RankLe(b, a)
    ensures a.order == b.order && a.height == b.height && a.bitrate > b.bitrate ==> !RankLe(b, a)
    ensures a.order == b.order && a.height == b.height && a.bitrate == b.bitrate && a.provider != b.provider ==>
              (RankLe(a, b) <==> TextLe(a.provider, b.provider))
    ensures a.order == b.order && a.height == b.height && a.bitrate == b.bitrate && a.provider == b.provider ==>
              (RankLe(a, b) <==> TextLe(a.source, b.source))
  {
  }

  lemma RankIsTransitive(a: Candidate, b: Candidate, c: Candidate)
    requires RankLe(a, b) && RankLe(b, c)
    ensures RankLe(a, c)
  {
    TextLeTotal(a.provider, b.provider);
    if TextLe(a.provider, b.provider) && TextLe(b.provider, c.provider) {
      TextLeTransitive(a.provider, b.provider, c.provider);
      TextLeTotal(b.provider, c.provider);
    }
    if TextLe(a.source, b.source) && TextLe(b.source, c.source) {
      TextLeTransitive(a.source, b.source, c.source);
    }
  }

  lemma RankIsPreorder()
    ensures TotalPreorder(RankLe)
  {
    forall a: Candidate, b: Candidate
      ensures RankLe(a, b) || RankLe(b, a)
    {
      RankIsTotal(a, b);
    }
    forall a: Candidate, b: Candidate, c: Candidate | RankLe(a, b) && RankLe(b, c)
      ensures RankLe(a, c)
    {
      RankIsTransitive(a, b, c);
    }
  }

  // ----- one candidate a key -------------------------------------------------------------------

  /** Position of the kept candidate with this key, |kept| when there is none. */
  function Find(kept: seq<Candidate>, key: Key, norms: Norms): (i: nat)
    ensures i <= |kept|
    ensures forall j | 0 <= j < i :: KeyOf(kept[j], norms) != key
    ensures i < |kept| ==> KeyOf(kept[i], norms) == key
  {
    if kept == [] || KeyOf(kept[0], norms) == key then 0 else 1 + Find(kept[1..], key, norms)
  }

  /** The dictionary of kept candidates, in insertion order, once `c` has been looked at. */
  function Put(kept: seq<Candidate>, c: Candidate, norms: Norms): seq<Candidate> {
    var i := Find(kept, KeyOf(c, norms), norms);
    if !Playable(c) then kept
    else if i == |kept| then kept + [c]
    else if !RankLe(kept[i], c) then kept[i := c]
    else kept
  }

  function Kept(cs: seq<Candidate>, norms: Norms): seq<Candidate> {
    if cs == [] then [] else Put(Kept(cs[..|cs| - 1], norms), cs[|cs| - 1], norms)
  }

  lemma KeptSnoc(cs: seq<Candidate>, i: nat, norms: Norms)
    requires i < |cs|
    ensures Kept(cs[..i + 1], norms) == Put(Kept(cs[..i], norms), cs[i], norms)
  {
    assert cs[..i + 1][..i] == cs[..i];
  }

  function Normalized(cs: seq<Candidate>, norms: Norms): seq<Candidate> {
    Sorted(Kept(cs, norms), RankLe)
  }

  method NormalizeCandidates(cs: seq<Candidate>, norms: Norms) returns (best: seq<Candidate>)
    ensures best == Normalized(cs, norms)
  {
    var deduped: seq<Candidate> := [];
    for n := 0 to |cs|
      invariant deduped == Kept(cs[..n], norms)
    {
      KeptSnoc(cs, n, norms);
      var c := cs[n];
      if c.kind != Release {
        continue;
      }
      if c.sourceUrl == "" && c.pageUrl == "" {
        continue;
      }
      var at := Find(deduped, KeyOf(c, norms), norms);
      if at == |deduped| {
        deduped := deduped + [c];
      } else if !RankLe(deduped[at], c) {
        deduped := deduped[at := c];
      }
    }
    assert cs[..|cs|] == cs;
    best := Sorted(deduped, RankLe);
  }

  // ----- what is kept --------------------------------------------------------------------------

  function Address(c: Candidate): string {
    if c.sourceUrl != "" then c.sourceUrl else c.pageUrl
  }

  /** Candidates that stand for each other: one address, quality, translation, title, season and episode. */
  predicate SameKey(a: Candidate, b: Candidate, norms: Norms) {
    && norms.url(Address(a)) == norms.url(Address(b))
    && norms.text(a.quality) == norms.text(b.quality)
    && norms.text(a.translation) == norms.text(b.translation)
    && norms.text(a.title) == norms.text(b.title)
    && a.season == b.season && a.episode == b.episode
  }

  /** A release one can play. */
  predicate IsOffered(c: Candidate) {
    c.kind == Release && !(c.sourceUrl == "" && c.pageUrl == "")
  }

  predicate DistinctKeys(s: seq<Candidate>, norms: Norms) {
    forall i, j | 0 <= i < j < |s| :: !SameKey(s[i], s[j], norms)
  }

  /** `cs[i]` is playable, better than every playable one of its key before it and no worse than those after. */
  predicate FirstBest(cs: seq<Candidate>, i: int, norms: Norms) {
    && 0 <= i < |cs|
    && IsOffered(cs[i])
    && (forall j | 0 <= j < |cs| && IsOffered(cs[j]) && SameKey(cs[j], cs[i], norms) ::
          RankLe(cs[i], cs[j]) && (j < i ==> !RankLe(cs[j], cs[i])))
  }

  ghost predicate IsFirstBest(c: Candidate, cs: seq<Candidate>, norms: Norms) {
    exists i :: FirstBest(cs, i, norms) && cs[i] == c
  }

  ghost predicate HasKey(s: seq<Candidate>, c: Candidate, norms: Norms) {
    exists k | 0 <= k < |s| :: SameKey(s[k], c, norms)
  }

  ghost predicate Represents(kept: seq<Candidate>, cs: seq<Candidate>, norms: Norms) {
    && DistinctKeys(kept, norms)
    && (forall k {:trigger IsFirstBest(kept[k], cs, norms)} | 0 <= k < |kept| :: IsFirstBest(kept[k], cs, norms))
    && (forall j {:trigger HasKey(kept, cs[j], norms)} | 0 <= j < |cs| && IsOffered(cs[j]) :: HasKey(kept, cs[j], norms))
  }

  /** A first best stays one when the next candidate has another key, is unplayable, or is no better. */
  lemma FirstBestStays(cs: seq<Candidate>, c: Candidate, d: Candidate, norms: Norms)
    requires IsFirstBest(c, cs, norms)
    requires IsOffered(d) && SameKey(d, c, norms) ==> RankLe(c, d)
    ensures IsFirstBest(c, cs + [d], norms)
  {
    var i :| FirstBest(cs, i, norms) && cs[i] == c;
    assert FirstBest(cs + [d], i, norms);
  }

  /** A better newcomer becomes the first best of its key. */
  lemma NewcomerIsBest(kept: seq<Candidate>, cs: seq<Candidate>, d: Candidate, norms: Norms)
    requires Represents(kept, cs, norms) && IsOffered(d)
    requires forall k | 0 <= k < |kept| && SameKey(kept[k], d, norms) :: !RankLe(kept[k], d)
    ensures IsFirstBest(d, cs + [d], norms)
  {
    var cs' := cs + [d];
    RankIsTotal(d, d);
    forall j | 0 <= j < |cs| && IsOffered(cs[j]) && SameKey(cs[j], d, norms)
      ensures RankLe(d, cs[j]) && !RankLe(cs[j], d)
    {
      assert HasKey(kept, cs[j], norms);
      var k :| 0 <= k < |kept| && SameKey(kept[k], cs[j], norms);
      assert IsFirstBest(kept[k], cs, norms) && !RankLe(kept[k], d);
      assert RankLe(kept[k], cs[j]);
      RankIsTotal(kept[k], d);
      RankIsTransitive(d, kept[k], cs[j]);
      if RankLe(cs[j], d) {
        RankIsTransitive(kept[k], cs[j], d);
      }
    }
    assert FirstBest(cs', |cs|, norms);
  }

  /** What `Put` does, by the position of the candidate's key. */
  lemma PutShape(kept: seq<Candidate>, d: Candidate, norms: Norms)
    ensures var kept' := Put(kept, d, norms);
            var at := Find(kept, KeyOf(d, norms), norms);
            && |kept| <= |kept'| <= |kept| + 1
            && (forall k | 0 <= k < |kept'| :: (k < |kept| && kept'[k] == kept[k]) || (k == at && kept'[k] == d))
            && (forall k | 0 <= k < |kept| :: SameKey(kept'[k], kept[k], norms))
            && (IsOffered(d) ==> at < |kept'| && SameKey(kept'[at], d, norms))
  {
  }

  lemma PutIsDistinct(kept: seq<Candidate>, d: Candidate, norms: Norms)
    requires DistinctKeys(kept, norms)
    ensures DistinctKeys(Put(kept, d, norms), norms)
  {
  }

  lemma FindIs(kept: seq<Candidate>, d: Candidate, j: nat, norms: Norms)
    requires DistinctKeys(kept, norms) && j < |kept| && SameKey(kept[j], d, norms)
    ensures Find(kept, KeyOf(d, norms), norms) == j
  {
    var at := Find(kept, KeyOf(d, norms), norms);
    assert at < j ==> SameKey(kept[at], kept[j], norms);
  }

  /** A position `Put` leaves alone. */
  lemma OldStays(kept: seq<Candidate>, cs: seq<Candidate>, d: Candidate, k: nat, norms: Norms)
    requires DistinctKeys(kept, norms) && k < |kept| && IsFirstBest(kept[k], cs, norms)
    requires Put(kept, d, norms)[k] == kept[k]
    ensures IsFirstBest(kept[k], cs + [d], norms)
  {
    if IsOffered(d) && SameKey(d, kept[k], norms) {
      FindIs(kept, d, k, norms);
      RankIsTotal(kept[k], d);
    }
    FirstBestStays(cs, kept[k], d, norms);
  }

  lemma PutHoldsTheBest(kept: seq<Candidate>, cs: seq<Candidate>, d: Candidate, k: nat, norms: Norms)
    requires Represents(kept, cs, norms) && k < |Put(kept, d, norms)|
    ensures IsFirstBest(Put(kept, d, norms)[k], cs + [d], norms)
  {
    var kept' := Put(kept, d, norms);
    if k < |kept| && kept'[k] == kept[k] {
      OldStays(kept, cs, d, k, norms);
    } else {
      assert kept'[k] == d && IsOffered(d);
      forall j | 0 <= j < |kept| && SameKey(kept[j], d, norms)
        ensures !RankLe(kept[j], d)
      {
        FindIs(kept, d, j, norms);
      }
      NewcomerIsBest(kept, cs, d, norms);
    }
  }

  lemma PutCovers(kept: seq<Candidate>, c: Candidate, d: Candidate, norms: Norms)
    requires HasKey(kept, c, norms) || (c == d && IsOffered(d))
    ensures HasKey(Put(kept, d, norms), c, norms)
  {
    PutShape(kept, d, norms);
    var kept' := Put(kept, d, norms);
    if HasKey(kept, c, norms) {
      var k :| 0 <= k < |kept| && SameKey(kept[k], c, norms);
      assert SameKey(kept'[k], c, norms);
    } else {
      assert SameKey(kept'[Find(kept, KeyOf(d, norms), norms)], c, norms);
    }
  }

  lemma PutRepresents(kept: seq<Candidate>, cs: seq<Candidate>, d: Candidate, norms: Norms)
    requires Represents(kept, cs, norms)
    ensures Represents(Put(kept, d, norms), cs + [d], norms)
  {
    var cs', kept' := cs + [d], Put(kept, d, norms);
    PutIsDistinct(kept, d, norms);
    forall k | 0 <= k < |kept'|
      ensures IsFirstBest(kept'[k], cs', norms)
    {
      PutHoldsTheBest(kept, cs, d, k, norms);
    }
    forall j | 0 <= j < |cs'| && IsOffered(cs'[j])
      ensures HasKey(kept', cs'[j], norms)
    {
      assert j < |cs| ==> HasKey(kept, cs[j], norms);
      PutCovers(kept, cs'[j], d, norms);
    }
  }

  lemma {:induction false} KeptRepresents(cs: seq<Candidate>, norms: Norms)
    ensures Represents(Kept(cs, norms), cs, norms)
    decreases |cs|
  {
    if cs != [] {
      var front, last := cs[..|cs| - 1], cs[|cs| - 1];
      KeptRepresents(front, norms);
      PutRepresents(Kept(front, norms), front, last, norms);
      assert cs == front + [last];
    }
  }

  lemma FirstBestIsUnique(cs: seq<Candidate>, i: int, j: int, norms: Norms)
    requires FirstBest(cs, i, norms) && FirstBest(cs, j, norms) && SameKey(cs[i], cs[j], norms)
    ensures i == j
  {
  }

  lemma KeptMembers(cs: seq<Candidate>, c: Candidate, norms: Norms)
    ensures c in Kept(cs, norms) <==> IsFirstBest(c, cs, norms)
  {
    var kept := Kept(cs, norms);
    KeptRepresents(cs, norms);
    if IsFirstBest(c, cs, norms) {
      var i :| FirstBest(cs, i, norms) && cs[i] == c;
      assert HasKey(kept, cs[i], norms);
      var k :| 0 <= k < |kept| && SameKey(kept[k], c, norms);
      assert IsFirstBest(kept[k], cs, norms);
      var i' :| FirstBest(cs, i', norms) && cs[i'] == kept[k];
      FirstBestIsUnique(cs, i, i', norms);
    }
  }

  lemma HasKeyRearranged(a: seq<Candidate>, b: seq<Candidate>, c: Candidate, norms: Norms)
    requires multiset(a) == multiset(b) && HasKey(a, c, norms)
    ensures HasKey(b, c, norms)
  {
    SameMembers(a, b);
    var k :| 0 <= k < |a| && SameKey(a[k], c, norms);
    assert a[k] in a;
    var m :| 0 <= m < |b| && b[m] == a[k];
    assert SameKey(b[m], c, norms);
  }

  /**
   * The result is sorted by rank, has one candidate a key, and holds exactly, for each key some
   * playable release has, the first of the best ranked ones.
   */
  lemma NormalizedHoldsTheBest(cs: seq<Candidate>, norms: Norms)
    ensures var best := Normalized(cs, norms);
            && IsSorted(best, RankLe)
            && DistinctKeys(best, norms)
            && (forall c :: c in best <==> IsFirstBest(c, cs, norms))
            && (forall j | 0 <= j < |cs| && IsOffered(cs[j]) :: HasKey(best, cs[j], norms))
  {
    var kept, best := Kept(cs, norms), Normalized(cs, norms);
    RankIsPreorder();
    SortedSorts(kept, RankLe);
    SortedKeeps(kept, RankLe);
    assert DistinctKeys(kept, norms) by { KeptRepresents(cs, norms); }
    DistinctKeysRearranged(kept, best, norms);
    forall c
      ensures c in best <==> IsFirstBest(c, cs, norms)
    {
      KeptMembers(cs, c, norms);
    }
    forall j | 0 <= j < |cs| && IsOffered(cs[j])
      ensures HasKey(best, cs[j], norms)
    {
      assert HasKey(kept, cs[j], norms) by { KeptRepresents(cs, norms); }
      HasKeyRearranged(kept, best, cs[j], norms);
    }
  }

  /** Distinct keys are a property of the elements, not of their order. */
  lemma DistinctKeysRearranged(a: seq<Candidate>, b: seq<Candidate>, norms: Norms)
    requires DistinctKeys(a, norms) && multiset(a) == multiset(b)
    ensures DistinctKeys(b, norms)
  {
    forall i, j | 0 <= i < j < |b|
      ensures !SameKey(b[i], b[j], norms)
    {
      SameMembers(a, b);
      assert b[i] in a && b[j] in a;
      if b[i] == b[j] {
        Twice(b, i, j);
        Once(a, b[i]);
      }
    }
  }

  // ----- stability -----------------------------------------------------------------------------

  lemma PutNew(front: seq<Candidate>, d: Candidate, norms: Norms)
    requires DistinctKeys(front + [d], norms) && IsOffered(d)
    ensures DistinctKeys(front, norms) && Put(front, d, norms) == front + [d]
  {
    var s := front + [d];
    assert forall i | 0 <= i < |front| :: s[i] == front[i];
    var at := Find(front, KeyOf(d, norms), norms);
    if at < |front| {
      assert SameKey(s[at], s[|front|], norms);
    }
  }

  lemma {:induction false} KeptFixes(s: seq<Candidate>, norms: Norms)
    requires DistinctKeys(s, norms) && forall i | 0 <= i < |s| :: IsOffered(s[i])
    ensures Kept(s, norms) == s
    decreases |s|
  {
    if s != [] {
      var n := |s| - 1;
      var front := s[..n];
      assert s == front + [s[n]];
      PutNew(front, s[n], norms);
      KeptFixes(front, norms);
    }
  }

  lemma NormalizeIsIdempotent(cs: seq<Candidate>, norms: Norms)
    ensures Normalized(Normalized(cs, norms), norms) == Normalized(cs, norms)
  {
    var best := Normalized(cs, norms);
    NormalizedHoldsTheBest(cs, norms);
    forall i | 0 <= i < |best|
      ensures IsOffered(best[i])
    {
      assert best[i] in best;
    }
    KeptFixes(best, norms);
    SortedFixes(best, RankLe);
  }

  /** Among the playable releases of `cs`, ranks tell candidates apart. */
  ghost predicate RanksSeparate(cs: seq<Candidate>) {
    forall a, b | a in cs && b in cs && IsOffered(a) && IsOffered(b) && SameRank(a, b) :: a == b
  }

  lemma BestOfEither(a: seq<Candidate>, b: seq<Candidate>, c: Candidate, norms: Norms)
    requires multiset(a) == multiset(b) && RanksSeparate(a)
    requires IsFirstBest(c, a, norms)
    ensures c in Normalized(b, norms)
  {
    SameMembers(a, b);
    NormalizedHoldsTheBest(b, norms);
    assert c in a && c in b;
    var j :| 0 <= j < |b| && b[j] == c;
    assert HasKey(Normalized(b, norms), b[j], norms);
    var k :| 0 <= k < |Normalized(b, norms)| && SameKey(Normalized(b, norms)[k], c, norms);
    var d := Normalized(b, norms)[k];
    assert d in Normalized(b, norms);
    var m :| FirstBest(b, m, norms) && b[m] == d;
    assert RankLe(d, b[j]);
    assert d in a;
    var m' :| 0 <= m' < |a| && a[m'] == d;
    var i :| FirstBest(a, i, norms) && a[i] == c;
    assert RankLe(c, a[m']);
    RankIsTotal(c, d);
  }

  /** When ranks tell candidates apart, the order providers answered in does not show. */
  lemma OrderIsIrrelevant(a: seq<Candidate>, b: seq<Candidate>, norms: Norms)
    requires multiset(a) == multiset(b) && RanksSeparate(a)
    ensures Normalized(a, norms) == Normalized(b, norms)
  {
    var x, y := Normalized(a, norms), Normalized(b, norms);
    SameMembers(a, b);
    NormalizedHoldsTheBest(a, norms);
    NormalizedHoldsTheBest(b, norms);
    assert RanksSeparate(b);
    forall c
      ensures multiset(x)[c] == multiset(y)[c]
    {
      Once(x, c);
      Once(y, c);
      if c in x {
        BestOfEither(a, b, c, norms);
      }
      if c in y {
        BestOfEither(b, a, c, norms);
      }
    }
    assert multiset(x) == multiset(y);
    forall c, d | c in x && d in x && RankLe(c, d) && RankLe(d, c)
      ensures c == d
    {
      RankIsTotal(c, d);
    }
    SortedUnique(x, y, RankLe);
  }

  /** Two playable releases: arrival order is invisible exactly when their ranks differ or they are the same. */
  lemma PairOrderIrrelevantIff(a: Candidate, b: Candidate, norms: Norms)
    requires IsOffered(a) && IsOffered(b)
    ensures Normalized([a, b], norms) == Normalized([b, a], norms) <==> (a == b || !SameRank(a, b))
  {
    if a == b || !SameRank(a, b) {
      assert multiset([a, b]) == multiset([b, a]);
      OrderIsIrrelevant([a, b], [b, a], norms);
    } else {
      TiedPair(a, b, norms);
      TiedPair(b, a, norms);
    }
  }

  lemma TiedPair(a: Candidate, b: Candidate, norms: Norms)
    requires IsOffered(a) && IsOffered(b) && SameRank(a, b)
    ensures Normalized([a, b], norms) != [] && Normalized([a, b], norms)[0] == a
  {
    RankIsTotal(a, b);
    assert [a, b][..1] == [a] && [a][..0] == [];
    assert Kept([a], norms) == [a];
    var kept := Kept([a, b], norms);
    assert kept == if SameKey(a, b, norms) then [a] else [a, b];
    assert IsSorted(kept, RankLe);
    SortedFixes(kept, RankLe);
  }
}
