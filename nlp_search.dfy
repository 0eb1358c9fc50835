/**
 * The free-text search of the bot: the landmark index built from the
 * neighbourhood data, fuzzy best-match selection, extraction of the two
 * place mentions from a question, the residential-area shortcut, the
 * suggestion list and the outcome classification of a search.
 *
 * The search object never changes its data after construction, so its
 * state is modelled by the index value that the operations receive.
 * `difflib.SequenceMatcher(...).ratio()` is a library routine returning a
 * float; it is the parameter `ratio`, and nothing proved here depends on
 * its values.
 */
module NlpSearch {
  import opened Wrappers
  import opened Text
  import opened TextSplit
  import opened Patterns

  // ---------------------------------------------------------------------
  // The landmark index
  // ---------------------------------------------------------------------

  /** A landmark as listed under a category: a record whose `name` field may be
      missing, a plain string, or anything else (which the index skips). */
  datatype Landmark = Record(name: Option<string>) | Plain(text: string) | Unsupported

  datatype Category = Category(title: string, landmarks: seq<Landmark>)

  /** The neighbourhood data: neighbourhoods, their categories and landmarks,
      in dictionary order. */
  datatype Neighborhood = Neighborhood(title: string, categories: seq<Category>)

  /** What the index stores for a landmark; `displayName` is the landmark's
      own `name` (the original spelling, before lower-casing). */
  datatype LandmarkInfo = LandmarkInfo(neighborhood: string, category: string, displayName: string)

  /** The index is a dictionary: a sequence of (key, info) pairs in insertion order. */
  type Entry = (string, LandmarkInfo)

  /** The index entry one landmark contributes, if any. A record without a
      name is filed under the empty key. */
  function EntryOf(nb: string, cat: string, l: Landmark): seq<Entry> {
    match l
    case Record(name) => [(Lower(name.GetOr("")), LandmarkInfo(nb, cat, name.GetOr("")))]
    case Plain(text) => [(Lower(text), LandmarkInfo(nb, cat, text))]
    case Unsupported => []
  }

  function LandmarkEntries(nb: string, cat: string, ls: seq<Landmark>): seq<Entry> {
    if ls == [] then []
    else LandmarkEntries(nb, cat, ls[..|ls| - 1]) + EntryOf(nb, cat, ls[|ls| - 1])
  }

  function CategoryEntries(nb: string, cs: seq<Category>): seq<Entry> {
    if cs == [] then []
    else CategoryEntries(nb, cs[..|cs| - 1]) + LandmarkEntries(nb, cs[|cs| - 1].title, cs[|cs| - 1].landmarks)
  }

  /** Every index assignment the construction performs, in order. */
  function Entries(nd: seq<Neighborhood>): seq<Entry> {
    if nd == [] then []
    else Entries(nd[..|nd| - 1]) + CategoryEntries(nd[|nd| - 1].title, nd[|nd| - 1].categories)
  }

  function KeySet(idx: seq<Entry>): set<string> {
    set i | 0 <= i < |idx| :: idx[i].0
  }

  predicate UniqueKeys(idx: seq<Entry>) {
    forall i, j :: 0 <= i < j < |idx| ==> idx[i].0 != idx[j].0
  }

  /** `d[k]`, if present. */
  function Lookup(idx: seq<Entry>, k: string): Option<LandmarkInfo> {
    if idx == [] then None
    else if idx[0].0 == k then Some(idx[0].1)
    else Lookup(idx[1..], k)
  }

  /** `d[k] = v`: an existing key keeps its place and takes the new value,
      a new key goes at the end. */
  function Put(idx: seq<Entry>, k: string, v: LandmarkInfo): seq<Entry> {
    if idx == [] then [(k, v)]
    else if idx[0].0 == k then [(k, v)] + idx[1..]
    else [idx[0]] + Put(idx[1..], k, v)
  }

  /** Assignment adds `k` to the keys, and every existing entry keeps its key
      and its place. */
  lemma {:induction false} PutKeys(idx: seq<Entry>, k: string, v: LandmarkInfo)
    ensures KeySet(Put(idx, k, v)) == KeySet(idx) + {k}
    ensures |Put(idx, k, v)| == if k in KeySet(idx) then |idx| else |idx| + 1
    ensures forall i :: 0 <= i < |idx| ==> Put(idx, k, v)[i].0 == idx[i].0
  {
    var r := Put(idx, k, v);
    if idx == [] {
      assert r[0].0 == k;
    } else if idx[0].0 == k {
      KeySetCons(idx);
      KeySetCons(r);
      assert r[1..] == idx[1..];
    } else {
      var rest := Put(idx[1..], k, v);
      PutKeys(idx[1..], k, v);
      KeySetCons(idx);
      KeySetCons(r);
      assert r[1..] == rest;
    }
  }

  lemma KeySetCons(idx: seq<Entry>)
    requires idx != []
    ensures KeySet(idx) == {idx[0].0} + KeySet(idx[1..])
  {
    forall k | k in KeySet(idx) ensures k in {idx[0].0} + KeySet(idx[1..]) {
      var i :| 0 <= i < |idx| && idx[i].0 == k;
      if i > 0 {
        assert idx[1..][i - 1].0 == k;
      }
    }
    forall k | k in KeySet(idx[1..]) ensures k in KeySet(idx) {
      var i :| 0 <= i < |idx[1..]| && idx[1..][i].0 == k;
      assert idx[i + 1].0 == k;
    }
  }

  /** After `d[k] = v`, `d[k]` is `v` and every other key reads as before. */
  lemma {:induction false} PutLookup(idx: seq<Entry>, k: string, v: LandmarkInfo, q: string)
    ensures Lookup(Put(idx, k, v), q) == if q == k then Some(v) else Lookup(idx, q)
  {
    if idx != [] && idx[0].0 != k {
      PutLookup(idx[1..], k, v, q);
      assert ([idx[0]] + Put(idx[1..], k, v))[1..] == Put(idx[1..], k, v);
    } else if idx != [] {
      assert ([(k, v)] + idx[1..])[1..] == idx[1..];
    }
  }

  /** Assignment never creates a second entry for a key. */
  lemma {:induction false} PutUnique(idx: seq<Entry>, k: string, v: LandmarkInfo)
    requires UniqueKeys(idx)
    ensures UniqueKeys(Put(idx, k, v))
  {
    var r := Put(idx, k, v);
    if idx == [] {
    } else if idx[0].0 == k {
      forall i, j | 0 <= i < j < |r| ensures r[i].0 != r[j].0 {
        assert r[i].0 == idx[i].0 && r[j].0 == idx[j].0;
      }
    } else {
      var rest := Put(idx[1..], k, v);
      PutUnique(idx[1..], k, v);
      PutKeys(idx[1..], k, v);
      assert r == [idx[0]] + rest;
      forall j | 0 < j < |r| ensures r[0].0 != r[j].0 {
        assert r[j] == rest[j - 1];
        assert rest[j - 1].0 in KeySet(rest);
        if rest[j - 1].0 != k {
          var m :| 0 <= m < |idx[1..]| && idx[1..][m].0 == rest[j - 1].0;
          assert idx[m + 1].0 == rest[j - 1].0;
        }
      }
    }
  }

  /** A sequence of assignments `d[k] = v`, applied in order. */
  function PutAll(idx: seq<Entry>, es: seq<Entry>): seq<Entry> {
    if es == [] then idx
    else Put(PutAll(idx, es[..|es| - 1]), es[|es| - 1].0, es[|es| - 1].1)
  }

  /** The value the last assignment to `k` in `es` wrote, if any. */
  function LastFor(es: seq<Entry>, k: string): Option<LandmarkInfo> {
    if es == [] then None
    else if es[|es| - 1].0 == k then Some(es[|es| - 1].1)
    else LastFor(es[..|es| - 1], k)
  }

  /** `_build_landmarks_index` as a value: every assignment of the triple loop
      applied to an empty dictionary. */
  function BuildIndex(nd: seq<Neighborhood>): seq<Entry> {
    PutAll([], Entries(nd))
  }

  lemma KeySetSnoc(es: seq<Entry>)
    requires es != []
    ensures KeySet(es) == KeySet(es[..|es| - 1]) + {es[|es| - 1].0}
  {
    var init := es[..|es| - 1];
    forall k | k in KeySet(es) ensures k in KeySet(init) + {es[|es| - 1].0} {
      var i :| 0 <= i < |es| && es[i].0 == k;
      if i < |init| {
        assert init[i].0 == k;
      }
    }
    forall k | k in KeySet(init) ensures k in KeySet(es) {
      var i :| 0 <= i < |init| && init[i].0 == k;
      assert es[i].0 == k;
    }
  }

  lemma {:induction false} PutAllUnique(idx: seq<Entry>, es: seq<Entry>)
    requires UniqueKeys(idx)
    ensures UniqueKeys(PutAll(idx, es))
  {
    if es != [] {
      PutAllUnique(idx, es[..|es| - 1]);
      PutUnique(PutAll(idx, es[..|es| - 1]), es[|es| - 1].0, es[|es| - 1].1);
    }
  }

  lemma {:induction false} PutAllKeys(idx: seq<Entry>, es: seq<Entry>)
    ensures KeySet(PutAll(idx, es)) == KeySet(idx) + KeySet(es)
  {
    if es != [] {
      PutAllKeys(idx, es[..|es| - 1]);
      PutKeys(PutAll(idx, es[..|es| - 1]), es[|es| - 1].0, es[|es| - 1].1);
      KeySetSnoc(es);
    }
  }

  lemma {:induction false} PutAllLookup(idx: seq<Entry>, es: seq<Entry>, q: string)
    ensures Lookup(PutAll(idx, es), q) == if LastFor(es, q).Some? then LastFor(es, q) else Lookup(idx, q)
  {
    if es != [] {
      PutAllLookup(idx, es[..|es| - 1], q);
      PutLookup(PutAll(idx, es[..|es| - 1]), es[|es| - 1].0, es[|es| - 1].1, q);
    }
  }

  /** The index holds one entry per distinct key of the data, and each key
      maps to the information of the last landmark filed under it. */
  lemma BuildIndexSpec(nd: seq<Neighborhood>, q: string)
    ensures UniqueKeys(BuildIndex(nd))
    ensures KeySet(BuildIndex(nd)) == KeySet(Entries(nd))
    ensures Lookup(BuildIndex(nd), q) == LastFor(Entries(nd), q)
  {
    PutAllUnique([], Entries(nd));
    PutAllKeys([], Entries(nd));
    PutAllLookup([], Entries(nd), q);
    assert KeySet([]) == {};
  }

  /** Two runs of assignments are one run of both. */
  lemma {:induction false} PutAllAppend(idx: seq<Entry>, a: seq<Entry>, b: seq<Entry>)
    ensures PutAll(idx, a + b) == PutAll(PutAll(idx, a), b)
  {
    if b == [] {
      assert a + b == a;
    } else {
      PutAllAppend(idx, a, b[..|b| - 1]);
      assert (a + b)[..|a + b| - 1] == a + b[..|b| - 1];
    }
  }

  lemma LandmarkEntriesStep(nb: string, cat: string, ls: seq<Landmark>, m: nat)
    requires m < |ls|
    ensures LandmarkEntries(nb, cat, ls[..m + 1]) == LandmarkEntries(nb, cat, ls[..m]) + EntryOf(nb, cat, ls[m])
  {
    assert ls[..m + 1][..m] == ls[..m];
  }

  lemma CategoryEntriesStep(nb: string, cs: seq<Category>, c: nat)
    requires c < |cs|
    ensures CategoryEntries(nb, cs[..c + 1]) == CategoryEntries(nb, cs[..c]) + LandmarkEntries(nb, cs[c].title, cs[c].landmarks)
  {
    assert cs[..c + 1][..c] == cs[..c];
  }

  lemma EntriesStep(nd: seq<Neighborhood>, n: nat)
    requires n < |nd|
    ensures Entries(nd[..n + 1]) == Entries(nd[..n]) + CategoryEntries(nd[n].title, nd[n].categories)
  {
    assert nd[..n + 1][..n] == nd[..n];
  }

  /** The body of the innermost loop: file one landmark. */
  method IndexLandmark(index: seq<Entry>, nb: string, cat: string, l: Landmark) returns (r: seq<Entry>)
    ensures r == PutAll(index, EntryOf(nb, cat, l))
  {
    match l
    case Record(name) =>
      r := Put(index, Lower(name.GetOr("")), LandmarkInfo(nb, cat, name.GetOr("")));
    case Plain(text) =>
      r := Put(index, Lower(text), LandmarkInfo(nb, cat, text));
    case Unsupported =>
      r := index;
  }

  /** `_build_landmarks_index`: the triple loop filling the dictionary. */
  method BuildLandmarksIndex(nd: seq<Neighborhood>) returns (index: seq<Entry>)
    ensures index == BuildIndex(nd)
  {
    index := [];
    for n := 0 to |nd|
      invariant index == PutAll([], Entries(nd[..n]))
    {
      var nb := nd[n];
      ghost var start := index;
      for c := 0 to |nb.categories|
        invariant index == PutAll(start, CategoryEntries(nb.title, nb.categories[..c]))
      {
        var cat := nb.categories[c];
        ghost var startCat := index;
        for m := 0 to |cat.landmarks|
          invariant index == PutAll(startCat, LandmarkEntries(nb.title, cat.title, cat.landmarks[..m]))
        {
          LandmarkEntriesStep(nb.title, cat.title, cat.landmarks, m);
          PutAllAppend(startCat, LandmarkEntries(nb.title, cat.title, cat.landmarks[..m]), EntryOf(nb.title, cat.title, cat.landmarks[m]));
          index := IndexLandmark(index, nb.title, cat.title, cat.landmarks[m]);
        }
        assert cat.landmarks[..|cat.landmarks|] == cat.landmarks;
        CategoryEntriesStep(nb.title, nb.categories, c);
        PutAllAppend(start, CategoryEntries(nb.title, nb.categories[..c]), LandmarkEntries(nb.title, cat.title, cat.landmarks));
      }
      assert nb.categories[..|nb.categories|] == nb.categories;
      EntriesStep(nd, n);
      PutAllAppend([], Entries(nd[..n]), CategoryEntries(nb.title, nb.categories));
    }
    assert nd[..|nd|] == nd;
  }

  // ---------------------------------------------------------------------
  // Threshold-gated best match
  // ---------------------------------------------------------------------

  /** The default `min_score` of `find_best_match`, and the similarity
      threshold of `find_residential_area`. */
  const MinScore: real := 0.6

  /** The position of the best score among the first `n`, if one beats
      `threshold`: a later score replaces the current best only when strictly
      greater. */
  function FirstMax(scores: seq<real>, threshold: real, n: nat): (r: Option<nat>)
    requires n <= |scores|
    ensures r.Some? ==> r.value < n
  {
    if n == 0 then None
    else
      var prev := FirstMax(scores, threshold, n - 1);
      var best := if prev.Some? then scores[prev.value] else threshold;
      if scores[n - 1] > best then Some(n - 1) else prev
  }

  /** No result iff no score beats the threshold; otherwise the result beats the
      threshold, is a maximum, and is strictly above every earlier score, so
      the first of equal maxima wins. */
  lemma {:induction false} FirstMaxSpec(scores: seq<real>, threshold: real, n: nat)
    requires n <= |scores|
    ensures FirstMax(scores, threshold, n).None? <==> forall j :: 0 <= j < n ==> scores[j] <= threshold
    ensures FirstMax(scores, threshold, n).Some? ==>
      var i := FirstMax(scores, threshold, n).value;
      && scores[i] > threshold
      && (forall j :: 0 <= j < n ==> scores[j] <= scores[i])
      && (forall j :: 0 <= j < i ==> scores[j] < scores[i])
  {
    if n > 0 {
      FirstMaxSpec(scores, threshold, n - 1);
    }
  }

  /** A match found by `find_best_match`. */
  datatype Found = Found(name: string, score: real, info: LandmarkInfo)

  /** `similarity_score(q, name)` for every index entry, in order. */
  function Scores(index: seq<Entry>, q: string, ratio: (string, string) -> real): (r: seq<real>)
    ensures |r| == |index|
  {
    seq(|index|, i requires 0 <= i < |index| => ratio(Lower(q), Lower(index[i].0)))
  }

  /** `find_best_match(query, min_score)` as a value. */
  function BestMatch(index: seq<Entry>, query: string, ratio: (string, string) -> real, minScore: real): Option<Found> {
    var sc := Scores(index, Strip(Lower(query)), ratio);
    match FirstMax(sc, minScore, |index|)
    case None => None
    case Some(i) => Some(Found(index[i].0, sc[i], index[i].1))
  }

  /** `find_best_match` returns nothing unless some score is strictly above
      `min_score`; what it returns is an index entry with a maximal score that
      is strictly above every earlier entry's score. */
  lemma BestMatchSpec(index: seq<Entry>, query: string, ratio: (string, string) -> real, minScore: real)
    ensures var sc := Scores(index, Strip(Lower(query)), ratio);
      && (BestMatch(index, query, ratio, minScore).None? <==> forall j :: 0 <= j < |index| ==> sc[j] <= minScore)
      && (BestMatch(index, query, ratio, minScore).Some? ==>
            exists i :: 0 <= i < |index|
              && BestMatch(index, query, ratio, minScore).value == Found(index[i].0, sc[i], index[i].1)
              && sc[i] > minScore
              && (forall j :: 0 <= j < |index| ==> sc[j] <= sc[i])
              && (forall j :: 0 <= j < i ==> sc[j] < sc[i]))
  {
    var sc := Scores(index, Strip(Lower(query)), ratio);
    FirstMaxSpec(sc, minScore, |index|);
  }

  /** `find_best_match`: the scan keeping the best score so far. */
  method FindBestMatch(index: seq<Entry>, query: string, ratio: (string, string) -> real, minScore: real)
    returns (bestMatch: Option<Found>)
    ensures bestMatch == BestMatch(index, query, ratio, minScore)
  {
    var q := Strip(Lower(query));
    ghost var sc := Scores(index, q, ratio);
    bestMatch := None;
    var bestScore := minScore;
    for i := 0 to |index|
      invariant FirstMax(sc, minScore, i).None? ==> bestMatch == None && bestScore == minScore
      invariant FirstMax(sc, minScore, i).Some? ==>
        var j := FirstMax(sc, minScore, i).value;
        bestMatch == Some(Found(index[j].0, sc[j], index[j].1)) && bestScore == sc[j]
    {
      var (name, info) := index[i];
      var score := ratio(Lower(q), Lower(name));
      assert score == sc[i];
      if score > bestScore {
        bestScore := score;
        bestMatch := Some(Found(name, score, info));
      }
    }
  }

  // ---------------------------------------------------------------------
  // Residential areas
  // ---------------------------------------------------------------------

  /** The fixed gazetteer of residential areas, in the order they are tried. */
  const ResidentialAreas: seq<string> := ["بوروتكس", "السلام", "المناخ", "الشرق", "العرب", "الزهور",
    "المنطقة الأولى", "المنطقة الثانية", "المنطقة الثالثة", "المنطقة الرابعة", "المنطقة الخامسة",
    "المنطقة السادسة", "منطقة شمال الحرية", "قشلاق السواحل", "حي ناصر"]

  /** The first area from the `k`-th on whose lower-cased name equals `name`. */
  function ExactArea(name: string, k: nat): (r: Option<nat>)
    ensures r.Some? ==> k <= r.value < |ResidentialAreas| && name == Lower(ResidentialAreas[r.value])
    ensures r.Some? ==> forall j :: k <= j < r.value ==> name != Lower(ResidentialAreas[j])
    ensures r.None? ==> forall j :: k <= j < |ResidentialAreas| ==> name != Lower(ResidentialAreas[j])
    decreases |ResidentialAreas| - k
  {
    if k >= |ResidentialAreas| then None
    else if name == Lower(ResidentialAreas[k]) then Some(k)
    else ExactArea(name, k + 1)
  }

  /** Either name occurs in the other. */
  predicate Overlaps(name: string, area: string) {
    Contains(Lower(area), name) || Contains(name, Lower(area))
  }

  /** The first area from the `k`-th on that overlaps `name`. */
  function PartialArea(name: string, k: nat): (r: Option<nat>)
    ensures r.Some? ==> k <= r.value < |ResidentialAreas| && Overlaps(name, ResidentialAreas[r.value])
    ensures r.Some? ==> forall j :: k <= j < r.value ==> !Overlaps(name, ResidentialAreas[j])
    ensures r.None? ==> forall j :: k <= j < |ResidentialAreas| ==> !Overlaps(name, ResidentialAreas[j])
    decreases |ResidentialAreas| - k
  {
    if k >= |ResidentialAreas| then None
    else if Overlaps(name, ResidentialAreas[k]) then Some(k)
    else PartialArea(name, k + 1)
  }

  /** The similarity of `name` to every area, in gazetteer order. */
  function AreaScores(name: string, ratio: (string, string) -> real): (r: seq<real>)
    ensures |r| == |ResidentialAreas|
  {
    seq(|ResidentialAreas|, i requires 0 <= i < |ResidentialAreas| => ratio(name, Lower(ResidentialAreas[i])))
  }

  /** `find_residential_area` as a value: exact match, else first overlap,
      else the best similarity above the threshold. */
  function ResidentialArea(areaName: string, ratio: (string, string) -> real): Option<string> {
    var name := Strip(Lower(areaName));
    match ExactArea(name, 0)
    case Some(i) => Some(ResidentialAreas[i])
    case None =>
      match PartialArea(name, 0)
      case Some(i) => Some(ResidentialAreas[i])
      case None =>
        match FirstMax(AreaScores(name, ratio), MinScore, |ResidentialAreas|)
        case Some(i) => Some(ResidentialAreas[i])
        case None => None
  }

  /** The result is always a gazetteer entry. An exact match is preferred;
      failing that, an overlapping name; failing that, a similarity strictly
      above 0.6; and with none of these there is no result. */
  lemma ResidentialAreaSpec(areaName: string, ratio: (string, string) -> real)
    ensures var name := Strip(Lower(areaName));
      var r := ResidentialArea(areaName, ratio);
      && (r.Some? ==> r.value in ResidentialAreas)
      && ((exists i :: 0 <= i < |ResidentialAreas| && name == Lower(ResidentialAreas[i])) ==>
            r.Some? && name == Lower(r.value))
      && ((forall i :: 0 <= i < |ResidentialAreas| ==> name != Lower(ResidentialAreas[i])) &&
          (exists i :: 0 <= i < |ResidentialAreas| && Overlaps(name, ResidentialAreas[i])) ==>
            r.Some? && Overlaps(name, r.value))
      && (r.None? <==>
            (forall i :: 0 <= i < |ResidentialAreas| ==> !Overlaps(name, ResidentialAreas[i])) &&
            (forall i :: 0 <= i < |ResidentialAreas| ==> AreaScores(name, ratio)[i] <= MinScore))
  {
    var name := Strip(Lower(areaName));
    FirstMaxSpec(AreaScores(name, ratio), MinScore, |ResidentialAreas|);
    if ExactArea(name, 0).Some? {
      var i := ExactArea(name, 0).value;
      assert Contains(Lower(ResidentialAreas[i]), name) by {
        assert name <= Lower(ResidentialAreas[i]);
      }
    }
  }

  /** An empty or blank name is contained in every area, so the first area wins. */
  lemma BlankResidentialArea(areaName: string, ratio: (string, string) -> real)
    requires forall i :: 0 <= i < |areaName| ==> IsSpace(areaName[i])
    ensures ResidentialArea(areaName, ratio) == Some("بوروتكس")
  {
    var name := Strip(Lower(areaName));
    StripSpec(Lower(areaName));
    assert name == [];
    assert Overlaps(name, ResidentialAreas[0]);
  }

  /** The first scan of `find_residential_area`: an exact match. */
  method ScanExact(name: string) returns (found: Option<nat>)
    ensures found == ExactArea(name, 0)
  {
    for k := 0 to |ResidentialAreas|
      invariant ExactArea(name, 0) == ExactArea(name, k)
    {
      if name == Lower(ResidentialAreas[k]) {
        return Some(k);
      }
    }
    return None;
  }

  /** The second scan: a name containing the other either way. */
  method ScanPartial(name: string) returns (found: Option<nat>)
    ensures found == PartialArea(name, 0)
  {
    for k := 0 to |ResidentialAreas|
      invariant PartialArea(name, 0) == PartialArea(name, k)
    {
      if Contains(Lower(ResidentialAreas[k]), name) || Contains(name, Lower(ResidentialAreas[k])) {
        return Some(k);
      }
    }
    return None;
  }

  /** The third scan: the first strictly best similarity above the threshold. */
  method ScanSimilar(name: string, ratio: (string, string) -> real) returns (found: Option<nat>)
    ensures found == FirstMax(AreaScores(name, ratio), MinScore, |ResidentialAreas|)
  {
    ghost var sc := AreaScores(name, ratio);
    found := None;
    var bestRatio := MinScore;
    for k := 0 to |ResidentialAreas|
      invariant found == FirstMax(sc, MinScore, k)
      invariant found.None? ==> bestRatio == MinScore
      invariant found.Some? ==> found.value < k && bestRatio == sc[found.value]
    {
      var r := ratio(name, Lower(ResidentialAreas[k]));
      if r > bestRatio {
        bestRatio := r;
        found := Some(k);
      }
    }
  }

  /** `find_residential_area`: three scans with early return. */
  method FindResidentialArea(areaName: string, ratio: (string, string) -> real) returns (area: Option<string>)
    ensures area == ResidentialArea(areaName, ratio)
  {
    var name := Strip(Lower(areaName));
    var exact := ScanExact(name);
    if exact.Some? {
      return Some(ResidentialAreas[exact.value]);
    }
    var partial := ScanPartial(name);
    if partial.Some? {
      return Some(ResidentialAreas[partial.value]);
    }
    var best := ScanSimilar(name, ratio);
    if best.Some? {
      return Some(ResidentialAreas[best.value]);
    }
    return None;
  }

  // ---------------------------------------------------------------------
  // Extracting the two place mentions
  // ---------------------------------------------------------------------

  const FromKeywords: seq<string> := ["من", "من عند", "بدءاً من", "انطلاقاً من", "ابتداءً من"]
  const ToKeywords: seq<string> := ["إلى", "الى", "لـ", "ل", "حتى", "وصولاً إلى", "باتجاه"]
  const QuestionKeywords: seq<string> := ["إزاي", "ازاي", "كيف", "طريقة", "أروح", "اروح", "أوصل", "اوصل"]

  /** The connector words of the keyword split, in the order they are tried. */
  const Connectors: seq<string> := FromKeywords + ToKeywords

  /** The start and end mentions of a question; `None` where there is none. */
  datatype Mentions = Mentions(start: Option<string>, end: Option<string>)

  /** Every character of `a` occurs in `b`. */
  predicate CharsWithin(a: string, b: string) {
    forall c :: c in a ==> c in b
  }

  /** Neither question mark occurs. */
  predicate NoQuestionMark(s: string) {
    '?' !in s && '؟' !in s
  }

  /** The text with both question marks deleted and surrounding whitespace stripped. */
  function Normalize(text: string): string {
    Strip(RemoveAll(RemoveAll(text, "؟"), "?"))
  }

  /** The first connector, from the `k`-th on, that occurs in `t`. */
  function FirstConnector(t: string, k: nat): (r: Option<nat>)
    ensures r.Some? ==> k <= r.value < |Connectors| && Contains(t, Connectors[r.value])
    ensures r.Some? ==> forall j :: k <= j < r.value ==> !Contains(t, Connectors[j])
    ensures r.None? ==> forall j :: k <= j < |Connectors| ==> !Contains(t, Connectors[j])
    decreases |Connectors| - k
  {
    if k >= |Connectors| then None
    else if Contains(t, Connectors[k]) then Some(k)
    else FirstConnector(t, k + 1)
  }

  /** The first connector present, from the `i`-th on, is the `k`-th when it
      occurs and none between them does. */
  lemma {:induction false} FirstConnectorIs(t: string, i: nat, k: nat)
    requires i <= k < |Connectors| && Contains(t, Connectors[k])
    requires forall j :: i <= j < k ==> !Contains(t, Connectors[j])
    ensures FirstConnector(t, i) == Some(k)
    decreases k - i
  {
    if i < k {
      FirstConnectorIs(t, i + 1, k);
    }
  }

  /** The question words up to the `n`-th deleted in turn, stripping after each. */
  function CleanQuestions(s: string, n: nat): (r: string)
    requires n <= |QuestionKeywords|
    ensures CharsWithin(r, s)
  {
    if n == 0 then s
    else
      var prev := CleanQuestions(s, n - 1);
      var r := Strip(RemoveAll(prev, QuestionKeywords[n - 1]));
      StripChars(RemoveAll(prev, QuestionKeywords[n - 1]));
      r
  }

  /** `s or None` */
  function NoneIfEmpty(s: string): (r: Option<string>)
    ensures r.Some? ==> r.value == s && s != []
    ensures r.None? ==> s == []
  {
    if s == [] then None else Some(s)
  }

  /** The keyword-split mentions: the pieces before the first and between the
      first and second occurrence of `kw`, cleaned of question words. */
  function KeywordSplit(t: string, kw: string): Mentions
    requires |kw| > 0 && Contains(t, kw)
  {
    SplitOnTwo(t, kw);
    var parts := SplitOn(t, kw);
    Mentions(NoneIfEmpty(CleanQuestions(Strip(parts[0]), |QuestionKeywords|)),
             NoneIfEmpty(CleanQuestions(Strip(parts[1]), |QuestionKeywords|)))
  }

  /** The from-to pattern: both captured groups, stripped. */
  function FromToMentions(t: string): (r: Option<Mentions>)
    ensures r.Some? ==> r.value.start.Some? && r.value.end.Some?
  {
    FromToGroups();
    match Search(FromTo, t)
    case None => None
    case Some(caps) => Some(Mentions(Some(Strip(GroupText(t, caps[0]))), Some(Strip(GroupText(t, caps[1])))))
  }

  /** The how-to-go pattern: no start, and the captured destination, stripped. */
  function HowToGoMentions(t: string): (r: Option<Mentions>)
    ensures r.Some? ==> r.value.start.None? && r.value.end.Some?
  {
    HowToGoGroups();
    match Search(HowToGo, t)
    case None => None
    case Some(caps) => Some(Mentions(None, Some(Strip(GroupText(t, caps[0])))))
  }

  /** `extract_locations_from_text` as a value: the from-to pattern, else the
      how-to-go pattern, else the split on the first connector present. */
  function Extract(text: string): Mentions {
    var t := Normalize(text);
    if FromToMentions(t).Some? then FromToMentions(t).value
    else if HowToGoMentions(t).Some? then HowToGoMentions(t).value
    else
      match FirstConnector(t, 0)
      case None => Mentions(None, None)
      case Some(k) => KeywordSplit(t, Connectors[k])
  }

  /** Both mentions are pieces of the text searched. */
  predicate MentionsWithin(m: Mentions, t: string) {
    && (m.start.Some? ==> CharsWithin(m.start.value, t))
    && (m.end.Some? ==> CharsWithin(m.end.value, t))
  }

  lemma FromToMentionsWithin(t: string)
    ensures FromToMentions(t).Some? ==> MentionsWithin(FromToMentions(t).value, t)
  {
    FromToGroups();
    match Search(FromTo, t)
    case None =>
    case Some(caps) =>
      StripChars(GroupText(t, caps[0]));
      StripChars(GroupText(t, caps[1]));
  }

  lemma HowToGoMentionsWithin(t: string)
    ensures HowToGoMentions(t).Some? ==> MentionsWithin(HowToGoMentions(t).value, t)
  {
    HowToGoGroups();
    match Search(HowToGo, t)
    case None =>
    case Some(caps) =>
      StripChars(GroupText(t, caps[0]));
  }

  lemma KeywordSplitWithin(t: string, kw: string)
    requires |kw| > 0 && Contains(t, kw)
    ensures MentionsWithin(KeywordSplit(t, kw), t)
  {
    var parts := SplitOn(t, kw);
    SplitOnTwo(t, kw);
    SplitOnChars(t, kw);
    StripChars(parts[0]);
    StripChars(parts[1]);
  }

  /** `strip()` keeps only characters of its argument. */
  lemma StripChars(s: string)
    ensures CharsWithin(Strip(s), s)
  {
    StripSpec(s);
  }

  /** Neither question mark survives normalisation. */
  lemma NormalizeNoQuestionMark(text: string)
    ensures NoQuestionMark(Normalize(text))
  {
    var once := RemoveAll(text, "؟");
    RemoveAllChar(text, '؟');
    RemoveAllChar(once, '?');
    StripChars(RemoveAll(once, "?"));
  }

  /** After extraction neither mention holds a question mark. */
  lemma ExtractNoQuestionMark(text: string)
    ensures Extract(text).start.Some? ==> NoQuestionMark(Extract(text).start.value)
    ensures Extract(text).end.Some? ==> NoQuestionMark(Extract(text).end.value)
  {
    var t := Normalize(text);
    NormalizeNoQuestionMark(text);
    FromToMentionsWithin(t);
    HowToGoMentionsWithin(t);
    if FirstConnector(t, 0).Some? {
      KeywordSplitWithin(t, Connectors[FirstConnector(t, 0).value]);
    }
    assert MentionsWithin(Extract(text), t);
  }

  /** The how-to-go form names no start. */
  lemma ExtractHowToGo(text: string)
    requires FromToMentions(Normalize(text)).None? && HowToGoMentions(Normalize(text)).Some?
    ensures Extract(text).start == None && Extract(text).end.Some?
  {
  }

  /** With no pattern matching and no connector present, there are no mentions. */
  lemma ExtractNoConnector(text: string)
    requires FromToMentions(Normalize(text)).None? && HowToGoMentions(Normalize(text)).None?
    requires forall k :: 0 <= k < |Connectors| ==> !Contains(Normalize(text), Connectors[k])
    ensures Extract(text) == Mentions(None, None)
  {
  }

  /** The mentions read off the text around the first two occurrences of a
      connector: the start is the text before the first occurrence, the end the
      text between the first and second, each stripped and cleaned of question
      words, an empty side giving `None`. */
  function FirstSplitMentions(t: string, kw: string): Mentions
    requires |kw| > 0 && Contains(t, kw)
  {
    FindSpec(t, kw);
    var i := Find(t, kw).value;
    var rest := t[i + |kw|..];
    var between := if Find(rest, kw).Some? then rest[..Find(rest, kw).value] else rest;
    Mentions(NoneIfEmpty(CleanQuestions(Strip(t[..i]), |QuestionKeywords|)),
             NoneIfEmpty(CleanQuestions(Strip(between), |QuestionKeywords|)))
  }

  /** Without a pattern match, the keyword split uses the first connector
      present, in the fixed order, and reads the mentions around its first two
      occurrences. */
  lemma ExtractKeywordSplit(text: string, k: nat)
    requires FromToMentions(Normalize(text)).None? && HowToGoMentions(Normalize(text)).None?
    requires k < |Connectors| && Contains(Normalize(text), Connectors[k])
    requires forall j :: 0 <= j < k ==> !Contains(Normalize(text), Connectors[j])
    ensures Extract(text) == FirstSplitMentions(Normalize(text), Connectors[k])
  {
    var t := Normalize(text);
    FirstConnectorIs(t, 0, k);
    ExtractBySplit(text, k);
    KeywordSplitParts(t, Connectors[k]);
  }

  /** Without a pattern match, the mentions come from the first connector's split. */
  lemma ExtractBySplit(text: string, k: nat)
    requires FromToMentions(Normalize(text)).None? && HowToGoMentions(Normalize(text)).None?
    requires FirstConnector(Normalize(text), 0) == Some(k)
    ensures Extract(text) == KeywordSplit(Normalize(text), Connectors[k])
  {
  }

  /** `split` agrees with the reading around the first two occurrences. */
  lemma KeywordSplitParts(t: string, kw: string)
    requires |kw| > 0 && Contains(t, kw)
    ensures KeywordSplit(t, kw) == FirstSplitMentions(t, kw)
  {
    FindSpec(t, kw);
    SplitFirstTwo(t, kw);
  }

  /** The connector loop of `extract_locations_from_text`: split on the first
      connector present, or leave `parts` empty. */
  method SplitOnFirstConnector(t: string) returns (parts: seq<string>)
    ensures FirstConnector(t, 0).None? ==> parts == []
    ensures FirstConnector(t, 0).Some? ==> parts == SplitOn(t, Connectors[FirstConnector(t, 0).value])
  {
    parts := [];
    var keywords := FromKeywords + ToKeywords;
    for k := 0 to |keywords|
      invariant parts == [] && FirstConnector(t, 0) == FirstConnector(t, k)
    {
      if Contains(t, keywords[k]) {
        parts := SplitOn(t, keywords[k]);
        break;
      }
    }
  }

  /** The question-word loop of `extract_locations_from_text`. */
  method RemoveQuestionWords(start: string, end: string) returns (potentialStart: string, potentialEnd: string)
    ensures potentialStart == CleanQuestions(start, |QuestionKeywords|)
    ensures potentialEnd == CleanQuestions(end, |QuestionKeywords|)
  {
    potentialStart := start;
    potentialEnd := end;
    for q := 0 to |QuestionKeywords|
      invariant potentialStart == CleanQuestions(start, q)
      invariant potentialEnd == CleanQuestions(end, q)
    {
      potentialStart := Strip(RemoveAll(potentialStart, QuestionKeywords[q]));
      potentialEnd := Strip(RemoveAll(potentialEnd, QuestionKeywords[q]));
    }
  }

  /** `extract_locations_from_text`: the two searches with early return, then
      the keyword split. */
  method ExtractLocationsFromText(text: string) returns (m: Mentions)
    ensures m == Extract(text)
  {
    var t := RemoveAll(RemoveAll(text, "؟"), "?");
    t := Strip(t);
    var found := FromToMentions(t);
    if found.Some? {
      return found.value;
    }
    found := HowToGoMentions(t);
    if found.Some? {
      return found.value;
    }
    var parts := SplitOnFirstConnector(t);
    if FirstConnector(t, 0).Some? {
      SplitOnTwo(t, Connectors[FirstConnector(t, 0).value]);
    }
    if |parts| >= 2 {
      var potentialStart, potentialEnd := RemoveQuestionWords(Strip(parts[0]), Strip(parts[1]));
      return Mentions(NoneIfEmpty(potentialStart), NoneIfEmpty(potentialEnd));
    }
    return Mentions(None, None);
  }

  // ---------------------------------------------------------------------
  // The residential-area shortcut
  // ---------------------------------------------------------------------

  /** A route between two residential areas of the gazetteer. */
  datatype Residential = Residential(startArea: string, endArea: string)

  /** The query with filler words removed and surrounding whitespace stripped. */
  function ResidentialQuery(query: string): string {
    Strip(RemoveFillers(query))
  }

  /** The two names the `k`-th residential pattern captures, stripped. */
  function ResidentialNames(q: string, k: nat): Option<(string, string)>
    requires k < |ResidentialPatterns|
  {
    ResidentialGroups();
    match Search(ResidentialPatterns[k], q)
    case None => None
    case Some(caps) => Some((Strip(GroupText(q, caps[0])), Strip(GroupText(q, caps[1]))))
  }

  /** What the `k`-th residential pattern yields: both captured names resolved
      to gazetteer areas, or nothing. */
  function ResolvedBy(q: string, ratio: (string, string) -> real, k: nat): Option<Residential>
    requires k < |ResidentialPatterns|
  {
    match ResidentialNames(q, k)
    case None => None
    case Some(names) =>
      var s := ResidentialArea(names.0, ratio);
      var e := ResidentialArea(names.1, ratio);
      if s.Some? && e.Some? then Some(Residential(s.value, e.value)) else None
  }

  /** The first pattern, from the `k`-th on, that resolves. */
  function FirstResolving(q: string, ratio: (string, string) -> real, k: nat): (r: Option<nat>)
    ensures r.Some? ==> k <= r.value < |ResidentialPatterns| && ResolvedBy(q, ratio, r.value).Some?
    ensures r.Some? ==> forall j :: k <= j < r.value ==> ResolvedBy(q, ratio, j).None?
    ensures r.None? ==> forall j :: k <= j < |ResidentialPatterns| ==> ResolvedBy(q, ratio, j).None?
    decreases |ResidentialPatterns| - k
  {
    if k >= |ResidentialPatterns| then None
    else if ResolvedBy(q, ratio, k).Some? then Some(k)
    else FirstResolving(q, ratio, k + 1)
  }

  /** `parse_residential_areas` as a value: the answer of the first pattern
      that resolves, if any. */
  function ParseResidential(query: string, ratio: (string, string) -> real): Option<Residential> {
    var q := ResidentialQuery(query);
    match FirstResolving(q, ratio, 0)
    case None => None
    case Some(k) => ResolvedBy(q, ratio, k)
  }

  /** Every resolved pattern names two gazetteer areas. */
  lemma ResolvedByInGazetteer(q: string, ratio: (string, string) -> real, k: nat)
    requires k < |ResidentialPatterns|
    ensures ResolvedBy(q, ratio, k).Some? ==>
      ResolvedBy(q, ratio, k).value.startArea in ResidentialAreas &&
      ResolvedBy(q, ratio, k).value.endArea in ResidentialAreas
  {
    match ResidentialNames(q, k)
    case None =>
    case Some(names) =>
      ResidentialAreaSpec(names.0, ratio);
      ResidentialAreaSpec(names.1, ratio);
  }

  /** There is no residential answer only when no pattern resolves, and an
      answer names two gazetteer areas. */
  lemma ParseResidentialSpec(query: string, ratio: (string, string) -> real)
    ensures ParseResidential(query, ratio).None? <==>
      forall j :: 0 <= j < |ResidentialPatterns| ==> ResolvedBy(ResidentialQuery(query), ratio, j).None?
    ensures ParseResidential(query, ratio).Some? ==>
      ParseResidential(query, ratio).value.startArea in ResidentialAreas &&
      ParseResidential(query, ratio).value.endArea in ResidentialAreas
  {
    var q := ResidentialQuery(query);
    if FirstResolving(q, ratio, 0).Some? {
      ResolvedByInGazetteer(q, ratio, FirstResolving(q, ratio, 0).value);
    }
  }

  /** The body of the pattern loop: search, then resolve both names. */
  method ResolvePattern(q: string, ratio: (string, string) -> real, k: nat) returns (r: Option<Residential>)
    requires k < |ResidentialPatterns|
    ensures r == ResolvedBy(q, ratio, k)
  {
    var found := ResidentialNames(q, k);
    r := None;
    if found.Some? {
      var startMatch := FindResidentialArea(found.value.0, ratio);
      var endMatch := FindResidentialArea(found.value.1, ratio);
      if startMatch.Some? && endMatch.Some? {
        r := Some(Residential(startMatch.value, endMatch.value));
      }
    }
  }

  /** `parse_residential_areas`: the loop over the patterns with early return. */
  method ParseResidentialAreas(query: string, ratio: (string, string) -> real) returns (r: Option<Residential>)
    ensures r == ParseResidential(query, ratio)
  {
    var q := RemoveFillers(query);
    q := Strip(q);
    assert q == ResidentialQuery(query);
    for k := 0 to |ResidentialPatterns|
      invariant FirstResolving(q, ratio, 0) == FirstResolving(q, ratio, k)
    {
      r := ResolvePattern(q, ratio, k);
      if r.Some? {
        return r;
      }
    }
    return None;
  }

  // ---------------------------------------------------------------------
  // Searching a route from text
  // ---------------------------------------------------------------------

  datatype Status = Error | PartialMatch | Success

  /** The structured result of `search_route_from_text` (its message text is
      not modelled). */
  datatype SearchOutcome =
    | ResidentialRoute(route: Residential)
    | Located(status: Status, start: Option<Found>, end: Option<Found>)

  /** A mention resolved against the index; an absent or empty mention is not looked up. */
  function Resolve(index: seq<Entry>, mention: Option<string>, ratio: (string, string) -> real): Option<Found> {
    if mention.Some? && mention.value != [] then BestMatch(index, mention.value, ratio, MinScore) else None
  }

  /** `search_route_from_text` as a value. */
  function SearchRoute(index: seq<Entry>, text: string, ratio: (string, string) -> real): SearchOutcome {
    match ParseResidential(text, ratio)
    case Some(r) => ResidentialRoute(r)
    case None =>
      var m := Extract(text);
      var s := Resolve(index, m.start, ratio);
      var e := Resolve(index, m.end, ratio);
      Located(if s.Some? && e.Some? then Success else if s.Some? || e.Some? then PartialMatch else Error, s, e)
  }

  /** A resolved mention is an index entry scoring strictly above 0.6. */
  lemma ResolveSpec(index: seq<Entry>, mention: Option<string>, ratio: (string, string) -> real)
    ensures Resolve(index, mention, ratio).Some? ==>
      Resolve(index, mention, ratio).value.score > MinScore &&
      (Resolve(index, mention, ratio).value.name, Resolve(index, mention, ratio).value.info) in index
  {
    if mention.Some? && mention.value != [] {
      BestMatchSpec(index, mention.value, ratio, MinScore);
      var sc := Scores(index, Strip(Lower(mention.value)), ratio);
      if Resolve(index, mention, ratio).Some? {
        var i :| 0 <= i < |index| && Resolve(index, mention, ratio).value == Found(index[i].0, sc[i], index[i].1)
          && sc[i] > MinScore;
        assert index[i] == (index[i].0, index[i].1);
      }
    }
  }

  /** A residential match short-circuits the search. Otherwise the status is
      `error` when neither mention resolves, `success` when both do and
      `partial_match` when exactly one does, and every resolved mention is an
      index entry scoring strictly above 0.6. */
  lemma SearchRouteSpec(index: seq<Entry>, text: string, ratio: (string, string) -> real)
    ensures ParseResidential(text, ratio).Some? ==> SearchRoute(index, text, ratio).ResidentialRoute?
    ensures SearchRoute(index, text, ratio).Located? ==>
      var o := SearchRoute(index, text, ratio);
      && (o.status == Error <==> o.start.None? && o.end.None?)
      && (o.status == Success <==> o.start.Some? && o.end.Some?)
      && (o.status == PartialMatch <==> o.start.Some? != o.end.Some?)
      && (o.start.Some? ==> o.start.value.score > MinScore && (o.start.value.name, o.start.value.info) in index)
      && (o.end.Some? ==> o.end.value.score > MinScore && (o.end.value.name, o.end.value.info) in index)
  {
    var m := Extract(text);
    ResolveSpec(index, m.start, ratio);
    ResolveSpec(index, m.end, ratio);
  }

  /** `search_route_from_text`: the residential shortcut, then the result
      record updated field by field. */
  method SearchRouteFromText(index: seq<Entry>, text: string, ratio: (string, string) -> real)
    returns (result: SearchOutcome)
    ensures result == SearchRoute(index, text, ratio)
  {
    var residential := ParseResidentialAreas(text, ratio);
    if residential.Some? {
      return ResidentialRoute(residential.value);
    }
    var mentions := ExtractLocationsFromText(text);
    result := Located(Error, None, None);
    if mentions.start.Some? && mentions.start.value != [] {
      var startMatch := FindBestMatch(index, mentions.start.value, ratio, MinScore);
      if startMatch.Some? {
        result := result.(start := startMatch);
      }
    }
    if mentions.end.Some? && mentions.end.value != [] {
      var endMatch := FindBestMatch(index, mentions.end.value, ratio, MinScore);
      if endMatch.Some? {
        result := result.(end := endMatch);
      }
    }
    if result.start.Some? || result.end.Some? {
      result := result.(status := PartialMatch);
      if result.start.Some? && result.end.Some? {
        result := result.(status := Success);
      }
    }
  }

  // ---------------------------------------------------------------------
  // Suggestions
  // ---------------------------------------------------------------------

  /** The suggestion shown for an index entry: its name and neighbourhood. */
  function Suggestion(info: LandmarkInfo): string {
    info.displayName + " - " + info.neighborhood
  }

  predicate NoDuplicates(s: seq<string>) {
    forall i, j :: 0 <= i < j < |s| ==> s[i] != s[j]
  }

  /** `s` is the suggestion of some entry whose key contains `t`. */
  predicate Suggested(index: seq<Entry>, t: string, s: string) {
    exists j :: 0 <= j < |index| && Contains(index[j].0, t) && Suggestion(index[j].1) == s
  }

  /** The scan from entry `i` on with the list `acc` gathered so far; it stops
      after any entry that leaves the list at least `limit` long. */
  function SuggestFrom(index: seq<Entry>, t: string, limit: int, i: nat, acc: seq<string>): seq<string>
    requires i <= |index|
    decreases |index| - i
  {
    if i == |index| then acc
    else
      var s := Suggestion(index[i].1);
      var next := if Contains(index[i].0, t) && s !in acc then acc + [s] else acc;
      if |next| >= limit then next else SuggestFrom(index, t, limit, i + 1, next)
  }

  /** `get_suggestions_for_text(text, limit)` as a value. */
  function Suggestions(index: seq<Entry>, text: string, limit: int): seq<string> {
    SuggestFrom(index, Strip(Lower(text)), limit, 0, [])
  }

  lemma {:induction false} SuggestFromSpec(index: seq<Entry>, t: string, limit: int, i: nat, acc: seq<string>)
    requires i <= |index|
    requires NoDuplicates(acc)
    requires forall s :: s in acc ==> Suggested(index, t, s)
    requires forall j :: 0 <= j < i && Contains(index[j].0, t) ==> Suggestion(index[j].1) in acc
    ensures var r := SuggestFrom(index, t, limit, i, acc);
      && acc <= r
      && NoDuplicates(r)
      && (forall s :: s in r ==> Suggested(index, t, s))
      && (|acc| < limit ==> |r| <= limit)
      && (|r| < limit ==> forall j :: 0 <= j < |index| && Contains(index[j].0, t) ==> Suggestion(index[j].1) in r)
    decreases |index| - i
  {
    if i < |index| {
      var s := Suggestion(index[i].1);
      var next := if Contains(index[i].0, t) && s !in acc then acc + [s] else acc;
      if |next| < limit {
        SuggestFromSpec(index, t, limit, i + 1, next);
      }
    }
  }

  /** The suggestions are distinct, each comes from an entry whose key
      contains the lower-cased, stripped query, there are at most `limit` of
      them when `limit` is positive (at most one otherwise), and when fewer
      than `limit` come back every matching entry is represented. */
  lemma SuggestionsSpec(index: seq<Entry>, text: string, limit: int)
    ensures var r := Suggestions(index, text, limit);
      var t := Strip(Lower(text));
      && NoDuplicates(r)
      && (forall s :: s in r ==> Suggested(index, t, s))
      && |r| <= (if limit >= 1 then limit else 1)
      && (|r| < limit ==> forall j :: 0 <= j < |index| && Contains(index[j].0, t) ==> Suggestion(index[j].1) in r)
  {
    SuggestFromSpec(index, Strip(Lower(text)), limit, 0, []);
  }

  /** `get_suggestions_for_text`: the scan with its `break`. */
  method GetSuggestionsForText(index: seq<Entry>, text: string, limit: int) returns (suggestions: seq<string>)
    ensures suggestions == Suggestions(index, text, limit)
  {
    var t := Strip(Lower(text));
    suggestions := [];
    for i := 0 to |index|
      invariant SuggestFrom(index, t, limit, i, suggestions) == Suggestions(index, text, limit)
    {
      var (name, info) := index[i];
      if Contains(name, t) {
        var suggestion := info.displayName + " - " + info.neighborhood;
        if suggestion !in suggestions {
          suggestions := suggestions + [suggestion];
        }
      }
      if |suggestions| >= limit {
        break;
      }
    }
  }

  // ---------------------------------------------------------------------
  // Walking time
  // ---------------------------------------------------------------------

  /** Python's `round(n / m)` for a positive divisor: the nearest integer,
      ties to the even one. */
  function RoundHalfEven(n: int, m: int): int
    requires m > 0
  {
    var q := n / m;
    var rem := n % m;
    if 2 * rem < m then q
    else if 2 * rem > m then q + 1
    else if q % 2 == 0 then q
    else q + 1
  }

  /** The result is a nearest integer to `n / m`, and the even one on a tie. */
  lemma RoundHalfEvenSpec(n: int, m: int)
    requires m > 0
    ensures var k := RoundHalfEven(n, m);
      && -m <= 2 * (n - m * k) <= m
      && (2 * (n - m * k) == m || 2 * (n - m * k) == -m ==> k % 2 == 0)
  {
    var q := n / m;
    var rem := n % m;
    assert n == m * q + rem;
    if 2 * rem > m || (2 * rem == m && q % 2 != 0) {
      assert n - m * (q + 1) == rem - m;
    }
  }

  /** Minutes on foot for `d` metres at 80 metres a minute, at least one. */
  function WalkingMinutes(d: int): (minutes: int)
    ensures minutes >= 1
    ensures minutes == 1 || minutes == RoundHalfEven(d, 80)
    ensures minutes >= RoundHalfEven(d, 80)
  {
    var r := RoundHalfEven(d, 80);
    if r > 1 then r else 1
  }

  lemma WalkingMinutesExamples()
    ensures WalkingMinutes(240) == 3
    ensures WalkingMinutes(10) == 1
    ensures WalkingMinutes(200) == 2
    ensures WalkingMinutes(280) == 4
  {
  }
}
