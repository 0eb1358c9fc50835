/**
 * The chat-side helpers: the inline keyboard layout, the callback check and
 * the route search over the in-memory route list (`find_route_logic`).
 */
module Helpers {
  import opened Wrappers
  import opened Text

  // ---------------------------------------------------------------------
  // Inline keyboard layout
  // ---------------------------------------------------------------------

  /** An element of the list handed to `build_keyboard`: a dictionary (with or
      without a "name" entry), a plain string, or anything else. */
  datatype Item = Entry(name: Option<string>) | Label(text: string) | Unsupported

  /** A button: its visible text and its callback payload. */
  datatype Button = Button(text: string, callback: string)

  const MaxPerRow: nat := 2
  const MaxIdentifierChars: nat := 30
  const MaxCallbackBytes: nat := 64

  /** The identifier an item contributes, if it is a truthy string. */
  function Identifier(item: Item): Option<string> {
    match item
    case Entry(name) => if name.Some? && name.value != "" then name else None
    case Label(text) => if text != "" then Some(text) else None
    case Unsupported => None
  }

  /** `identifier[:30]` */
  function Truncate(id: string): (r: string)
    ensures |r| <= MaxIdentifierChars && r <= id
    ensures |id| <= MaxIdentifierChars ==> r == id
  {
    if |id| > MaxIdentifierChars then id[..MaxIdentifierChars] else id
  }

  function CallbackFor(prefix: string, id: string): string {
    prefix + ":" + Truncate(id)
  }

  /** The button an item yields: none for an unusable item or an oversized callback. */
  function ButtonFor(item: Item, prefix: string): seq<Button> {
    match Identifier(item)
    case None => []
    case Some(id) =>
      var cb := CallbackFor(prefix, id);
      if Utf8Len(cb) <= MaxCallbackBytes then [Button(id, cb)] else []
  }

  /** The item buttons in item order, before they are cut into rows. */
  function ItemButtons(items: seq<Item>, prefix: string): seq<Button> {
    if items == [] then []
    else ItemButtons(items[..|items| - 1], prefix) + ButtonFor(items[|items| - 1], prefix)
  }

  /** Each item button shows an item's identifier and carries `prefix:identifier[:30]`,
      which fits in 64 UTF-8 bytes. */
  lemma {:induction false} ItemButtonsSound(items: seq<Item>, prefix: string)
    ensures forall b :: b in ItemButtons(items, prefix) ==>
              && b.callback == CallbackFor(prefix, b.text)
              && Utf8Len(b.callback) <= MaxCallbackBytes
              && exists it :: it in items && Identifier(it) == Some(b.text)
  {
    if items != [] {
      var n := |items| - 1;
      ItemButtonsSound(items[..n], prefix);
      forall b | b in ItemButtons(items, prefix)
        ensures exists it :: it in items && Identifier(it) == Some(b.text)
      {
        if b in ItemButtons(items[..n], prefix) {
          var it :| it in items[..n] && Identifier(it) == Some(b.text);
          assert it in items;
        } else {
          assert items[n] in items;
        }
      }
    }
  }

  /** The navigation row: "back" when a non-empty target is given, then "cancel". */
  function NavRow(backTarget: Option<string>): seq<Button> {
    (if backTarget.Some? && backTarget.value != ""
     then [Button("⬅️ رجوع", "back_to_" + backTarget.value)] else [])
    + [Button("❌ إلغاء", "cancel_action")]
  }

  /** The rows laid end to end. */
  function Concat(rows: seq<seq<Button>>): seq<Button> {
    if rows == [] then [] else Concat(rows[..|rows| - 1]) + rows[|rows| - 1]
  }

  lemma ConcatAppend(rows: seq<seq<Button>>, row: seq<Button>)
    ensures Concat(rows + [row]) == Concat(rows) + row
  {
    assert (rows + [row])[..|rows|] == rows;
  }

  lemma ItemButtonsStep(items: seq<Item>, i: nat, prefix: string)
    requires i < |items|
    ensures ItemButtons(items[..i + 1], prefix) == ItemButtons(items[..i], prefix) + ButtonFor(items[i], prefix)
  {
    assert items[..i + 1][..i] == items[..i];
  }

  /** Every row holds exactly `MaxPerRow` buttons. */
  predicate FullRows(rows: seq<seq<Button>>) {
    rows == [] || (FullRows(rows[..|rows| - 1]) && |rows[|rows| - 1]| == MaxPerRow)
  }

  lemma {:induction false} FullRowsAt(rows: seq<seq<Button>>, k: nat)
    requires FullRows(rows) && k < |rows|
    ensures |rows[k]| == MaxPerRow
  {
    if k < |rows| - 1 {
      FullRowsAt(rows[..|rows| - 1], k);
    }
  }

  /** The loop body of `build_keyboard` for one item: the button it adds, if any. */
  method ItemButton(item: Item, prefix: string) returns (added: seq<Button>)
    ensures added == ButtonFor(item, prefix)
  {
    var itemText := match item
      case Entry(name) => name
      case Label(text) => Some(text)
      case Unsupported => None;
    added := [];
    if itemText.Some? && itemText.value != "" {
      var identifier := itemText.value;
      identifier := if |identifier| > MaxIdentifierChars then identifier[..MaxIdentifierChars] else identifier;
      var callbackData := prefix + ":" + identifier;
      if Utf8Len(callbackData) <= MaxCallbackBytes {
        added := [Button(itemText.value, callbackData)];
      }
    }
  }

  /** `build_keyboard`: item buttons in rows of at most two, only the last item row
      possibly short, followed by the navigation row. */
  method BuildKeyboard(items: seq<Item>, prefix: string, backTarget: Option<string>)
    returns (keyboard: seq<seq<Button>>)
    ensures |keyboard| >= 1 && keyboard[|keyboard| - 1] == NavRow(backTarget)
    ensures forall k :: 0 <= k < |keyboard| - 1 ==> 1 <= |keyboard[k]| <= MaxPerRow
    ensures forall k :: 0 <= k < |keyboard| - 2 ==> |keyboard[k]| == MaxPerRow
    ensures Concat(keyboard[..|keyboard| - 1]) == ItemButtons(items, prefix)
  {
    keyboard := [];
    var row: seq<Button> := [];
    var i := 0;
    while i < |items|
      invariant 0 <= i <= |items|
      invariant FullRows(keyboard)
      invariant |row| < MaxPerRow
      invariant Concat(keyboard) + row == ItemButtons(items[..i], prefix)
    {
      var added := ItemButton(items[i], prefix);
      ItemButtonsStep(items, i, prefix);
      keyboard, row := PlaceButtons(keyboard, row, added);
      i := i + 1;
    }
    assert items[..i] == items;
    keyboard := CloseKeyboard(keyboard, row, backTarget);
  }

  /** Appends an item's button (if any) to the current row, moving the row
      into the keyboard once it is full. */
  method PlaceButtons(full: seq<seq<Button>>, row: seq<Button>, added: seq<Button>)
    returns (keyboard: seq<seq<Button>>, newRow: seq<Button>)
    requires FullRows(full) && |row| < MaxPerRow && |added| <= 1
    ensures FullRows(keyboard) && |newRow| < MaxPerRow
    ensures Concat(keyboard) + newRow == Concat(full) + row + added
  {
    keyboard, newRow := full, row + added;
    if |newRow| == MaxPerRow {
      ConcatAppend(keyboard, newRow);
      assert (keyboard + [newRow])[..|keyboard|] == keyboard;
      keyboard := keyboard + [newRow];
      newRow := [];
    }
  }

  /** The end of `build_keyboard`: the unfinished row, if any, then the
      navigation row. */
  method CloseKeyboard(full: seq<seq<Button>>, row: seq<Button>, backTarget: Option<string>)
    returns (keyboard: seq<seq<Button>>)
    requires FullRows(full) && |row| < MaxPerRow
    ensures |keyboard| >= 1 && keyboard[|keyboard| - 1] == NavRow(backTarget)
    ensures forall k :: 0 <= k < |keyboard| - 1 ==> 1 <= |keyboard[k]| <= MaxPerRow
    ensures forall k :: 0 <= k < |keyboard| - 2 ==> |keyboard[k]| == MaxPerRow
    ensures Concat(keyboard[..|keyboard| - 1]) == Concat(full) + row
  {
    keyboard := full;
    forall k | 0 <= k < |keyboard| ensures |keyboard[k]| == MaxPerRow {
      FullRowsAt(keyboard, k);
    }
    if row != [] {
      ConcatAppend(keyboard, row);
      keyboard := keyboard + [row];
    } else {
      assert Concat(keyboard) == Concat(full) + row;
    }
    var navButtons := NavRow(backTarget);
    assert (keyboard + [navButtons])[..|keyboard|] == keyboard;
    keyboard := keyboard + [navButtons];
  }

  /** `validate_callback_data` */
  function ValidateCallbackData(callbackData: string): (ok: bool)
    ensures ok ==> 0 < |callbackData| <= MaxCallbackBytes
  {
    if callbackData == "" then false
    else if Utf8Len(callbackData) > MaxCallbackBytes then false
    else if ':' !in callbackData then false
    else true
  }

  /** Every callback the keyboard attaches to an item passes `validate_callback_data`. */
  lemma {:induction false} KeyboardCallbacksValidate(items: seq<Item>, prefix: string)
    ensures forall b :: b in ItemButtons(items, prefix) ==> ValidateCallbackData(b.callback)
  {
    ItemButtonsSound(items, prefix);
    forall b | b in ItemButtons(items, prefix) ensures ValidateCallbackData(b.callback) {
      var cb := b.callback;
      assert cb == prefix + ":" + Truncate(b.text);
      assert cb[|prefix|] == ':';
    }
  }

  // ---------------------------------------------------------------------
  // Route search over the in-memory route list (`find_route_logic`)
  // ---------------------------------------------------------------------

  /** A key point of a route: a string, or any other decoded JSON value,
      kept with the text `str()` gives for it. */
  datatype Point = Str(text: string) | Other(shown: string)

  /** `str(point)` */
  function Shown(p: Point): string {
    match p
    case Str(text) => text
    case Other(shown) => shown
  }

  /** A route record as `get_routes_from_db` hands it over. */
  datatype Route = Route(routeName: string, fare: string, startArea: string, endArea: string,
                         keyPoints: seq<Point>, notes: string)

  /** How a stop matched a place name, best first. */
  datatype Tier = Exact | Partial | Keyword

  /** The ranking weights: exact 3, partial 2, keyword 1. */
  function Priority(t: Tier): nat {
    match t
    case Exact => 3
    case Partial => 2
    case Keyword => 1
  }

  /** `s.lower().strip()` */
  function Clean(s: string): string {
    Strip(Lower(s))
  }

  /** Some whitespace-separated word of the query, longer than two characters,
      occurs in the stop. */
  predicate HasKeyword(locClean: string, pointClean: string) {
    var words := Words(locClean);
    exists k | 0 <= k < |words| :: |words[k]| > 2 && Contains(pointClean, words[k])
  }

  /** The tier a stop earns against the cleaned query, tested in order:
      equality, containment either way, a shared keyword. Non-string stops
      never match. */
  function Classify(locClean: string, point: Point): Option<Tier> {
    match point
    case Other(_) => None
    case Str(text) =>
      var pointClean := Clean(text);
      if locClean == pointClean then Some(Exact)
      else if Contains(pointClean, locClean) || Contains(locClean, pointClean) then Some(Partial)
      else if HasKeyword(locClean, pointClean) then Some(Keyword)
      else None
  }

  /** The tiers are exclusive and tested in order: only string stops match;
      exact is equality of the cleaned strings; partial is containment either way
      when they differ; keyword needs a shared word and no containment. */
  lemma ClassifySpec(locClean: string, point: Point)
    ensures var r := Classify(locClean, point);
      && (r.Some? ==> point.Str?)
      && (r == Some(Exact) <==> point.Str? && Clean(point.text) == locClean)
      && (r == Some(Partial) <==>
            (point.Str? && Clean(point.text) != locClean
             && (Contains(Clean(point.text), locClean) || Contains(locClean, Clean(point.text)))))
      && (r == Some(Keyword) <==>
            (point.Str? && Clean(point.text) != locClean
             && !Contains(Clean(point.text), locClean) && !Contains(locClean, Clean(point.text))
             && HasKeyword(locClean, Clean(point.text))))
  {
  }

  /** A stop index with the tier it matched at. */
  datatype StopMatch = StopMatch(index: nat, tier: Tier)

  /** The tier of every stop against the cleaned query. */
  function Tiers(locClean: string, points: seq<Point>): (r: seq<Option<Tier>>)
    ensures |r| == |points|
  {
    if points == [] then []
    else Tiers(locClean, points[..|points| - 1]) + [Classify(locClean, points[|points| - 1])]
  }

  lemma {:induction false} TiersAt(locClean: string, points: seq<Point>, i: nat)
    requires i < |points|
    ensures Tiers(locClean, points)[i] == Classify(locClean, points[i])
  {
    var n := |points| - 1;
    if i < n {
      TiersAt(locClean, points[..n], i);
    }
  }

  /** The matching stops among the first `n`, in stop order. */
  function Collect(tiers: seq<Option<Tier>>, n: nat): seq<StopMatch>
    requires n <= |tiers|
  {
    if n == 0 then []
    else
      var prev := Collect(tiers, n - 1);
      match tiers[n - 1]
      case None => prev
      case Some(t) => prev + [StopMatch(n - 1, t)]
  }

  lemma {:induction false} CollectBelow(tiers: seq<Option<Tier>>, n: nat)
    requires n <= |tiers|
    ensures forall k :: 0 <= k < |Collect(tiers, n)| ==> Collect(tiers, n)[k].index < n
  {
    if n > 0 {
      CollectBelow(tiers, n - 1);
    }
  }

  /** Every reported index is a stop with the reported tier, and the indices
      strictly increase. */
  lemma {:induction false} CollectSound(tiers: seq<Option<Tier>>, n: nat)
    requires n <= |tiers|
    ensures forall k :: 0 <= k < |Collect(tiers, n)| ==>
              Collect(tiers, n)[k].index < n && tiers[Collect(tiers, n)[k].index] == Some(Collect(tiers, n)[k].tier)
    ensures forall a, b :: 0 <= a < b < |Collect(tiers, n)| ==> Collect(tiers, n)[a].index < Collect(tiers, n)[b].index
  {
    if n > 0 {
      CollectSound(tiers, n - 1);
    }
  }

  /** Every stop that matches is reported. */
  lemma {:induction false} CollectComplete(tiers: seq<Option<Tier>>, n: nat, i: nat)
    requires i < n <= |tiers| && tiers[i].Some?
    ensures exists k :: 0 <= k < |Collect(tiers, n)| && Collect(tiers, n)[k].index == i
  {
    var prev := Collect(tiers, n - 1);
    var r := Collect(tiers, n);
    assert prev <= r;
    if i < n - 1 {
      CollectComplete(tiers, n - 1, i);
      var k :| 0 <= k < |prev| && prev[k].index == i;
      assert r[k].index == i;
    } else {
      assert r[|prev|].index == i;
    }
  }

  /** What `find_location_in_route` returns. */
  function StopMatches(location: string, points: seq<Point>): (r: seq<StopMatch>)
    ensures InRange(r, points)
  {
    CollectBelow(Tiers(Clean(location), points), |points|);
    Collect(Tiers(Clean(location), points), |points|)
  }

  /** `find_location_in_route` reports every matching stop once, in increasing
      index order, each with the tier `Classify` gives it. */
  lemma StopMatchesSpec(location: string, points: seq<Point>)
    ensures var r := StopMatches(location, points);
      && (forall k :: 0 <= k < |r| ==>
            r[k].index < |points| && Classify(Clean(location), points[r[k].index]) == Some(r[k].tier))
      && (forall a, b :: 0 <= a < b < |r| ==> r[a].index < r[b].index)
      && (forall i :: 0 <= i < |points| && Classify(Clean(location), points[i]).Some? ==>
            exists k :: 0 <= k < |r| && r[k].index == i)
  {
    var tiers := Tiers(Clean(location), points);
    CollectSound(tiers, |points|);
    var r := StopMatches(location, points);
    assert r == Collect(tiers, |points|);
    forall k | 0 <= k < |r|
      ensures r[k].index < |points| && Classify(Clean(location), points[r[k].index]) == Some(r[k].tier)
    {
      TiersAt(Clean(location), points, r[k].index);
    }
    forall i | 0 <= i < |points| && Classify(Clean(location), points[i]).Some?
      ensures exists k :: 0 <= k < |r| && r[k].index == i
    {
      TiersAt(Clean(location), points, i);
      CollectComplete(tiers, |points|, i);
    }
  }

  /** `find_location_in_route` */
  method FindLocationInRoute(location: string, routePoints: seq<Point>) returns (indices: seq<StopMatch>)
    ensures indices == StopMatches(location, routePoints)
  {
    indices := [];
    var locationClean := Strip(Lower(location));
    for i := 0 to |routePoints|
      invariant indices == Collect(Tiers(locationClean, routePoints), i)
    {
      TiersAt(locationClean, routePoints, i);
      match routePoints[i] {
        case Str(point) =>
          var pointClean := Strip(Lower(point));
          if locationClean == pointClean {
            indices := indices + [StopMatch(i, Exact)];
          } else if Contains(pointClean, locationClean) || Contains(locationClean, pointClean) {
            indices := indices + [StopMatch(i, Partial)];
          } else if HasKeyword(locationClean, pointClean) {
            indices := indices + [StopMatch(i, Keyword)];
          }
        case Other(_) =>
      }
    }
  }

  /** An entry of `valid_routes`: a start stop before an end stop on one route. */
  datatype Pairing = Pairing(startIdx: nat, endIdx: nat, startTier: Tier, endTier: Tier,
                             startPoint: Point, endPoint: Point)

  predicate InRange(ms: seq<StopMatch>, points: seq<Point>) {
    forall k :: 0 <= k < |ms| ==> ms[k].index < |points|
  }

  /** The pair a start match and an end match make, when they are in travel order. */
  function PairOf(s: StopMatch, e: StopMatch, points: seq<Point>): seq<Pairing>
    requires s.index < |points| && e.index < |points|
  {
    if s.index < e.index then [Pairing(s.index, e.index, s.tier, e.tier, points[s.index], points[e.index])]
    else []
  }

  /** The inner loop over the end matches for one start match. */
  function PairsWith(s: StopMatch, ends: seq<StopMatch>, points: seq<Point>): seq<Pairing>
    requires s.index < |points| && InRange(ends, points)
  {
    if ends == [] then []
    else PairsWith(s, ends[..|ends| - 1], points) + PairOf(s, ends[|ends| - 1], points)
  }

  /** `valid_routes` before sorting: start matches outer, end matches inner. */
  function ValidPairs(starts: seq<StopMatch>, ends: seq<StopMatch>, points: seq<Point>): seq<Pairing>
    requires InRange(starts, points) && InRange(ends, points)
  {
    if starts == [] then []
    else ValidPairs(starts[..|starts| - 1], ends, points) + PairsWith(starts[|starts| - 1], ends, points)
  }

  /** `p` joins a start match to a later end match and names their stops. */
  predicate PairedFrom(p: Pairing, starts: seq<StopMatch>, ends: seq<StopMatch>, points: seq<Point>) {
    && StopMatch(p.startIdx, p.startTier) in starts
    && StopMatch(p.endIdx, p.endTier) in ends
    && p.startIdx < p.endIdx < |points|
    && p.startPoint == points[p.startIdx]
    && p.endPoint == points[p.endIdx]
  }

  lemma {:induction false} PairsWithSpec(s: StopMatch, ends: seq<StopMatch>, points: seq<Point>)
    requires s.index < |points| && InRange(ends, points)
    ensures forall p :: p in PairsWith(s, ends, points) ==> PairedFrom(p, [s], ends, points)
    ensures forall b :: 0 <= b < |ends| && s.index < ends[b].index ==>
              PairOf(s, ends[b], points)[0] in PairsWith(s, ends, points)
  {
    if ends != [] {
      var n := |ends| - 1;
      PairsWithSpec(s, ends[..n], points);
      forall p | p in PairsWith(s, ends, points) ensures PairedFrom(p, [s], ends, points) {
        if p in PairsWith(s, ends[..n], points) {
          assert StopMatch(p.endIdx, p.endTier) in ends[..n];
        }
      }
      forall b | 0 <= b < |ends| && s.index < ends[b].index
        ensures PairOf(s, ends[b], points)[0] in PairsWith(s, ends, points)
      {
        if b < n {
          assert ends[..n][b] == ends[b];
        }
      }
    }
  }

  /** Every pair joins a start match to a strictly later end match. */
  lemma {:induction false} ValidPairsSound(starts: seq<StopMatch>, ends: seq<StopMatch>, points: seq<Point>)
    requires InRange(starts, points) && InRange(ends, points)
    ensures forall p :: p in ValidPairs(starts, ends, points) ==> PairedFrom(p, starts, ends, points)
  {
    if starts != [] {
      var n := |starts| - 1;
      ValidPairsSound(starts[..n], ends, points);
      PairsWithSpec(starts[n], ends, points);
      forall p | p in ValidPairs(starts, ends, points) ensures PairedFrom(p, starts, ends, points) {
        if p in ValidPairs(starts[..n], ends, points) {
          assert StopMatch(p.startIdx, p.startTier) in starts[..n];
        } else {
          assert StopMatch(p.startIdx, p.startTier) in [starts[n]];
        }
      }
    }
  }

  /** Every start match followed by a later end match gives a pair. */
  lemma {:induction false} ValidPairsComplete(starts: seq<StopMatch>, ends: seq<StopMatch>, points: seq<Point>)
    requires InRange(starts, points) && InRange(ends, points)
    ensures forall a, b :: 0 <= a < |starts| && 0 <= b < |ends| && starts[a].index < ends[b].index ==>
              PairOf(starts[a], ends[b], points)[0] in ValidPairs(starts, ends, points)
  {
    if starts != [] {
      var n := |starts| - 1;
      ValidPairsComplete(starts[..n], ends, points);
      PairsWithSpec(starts[n], ends, points);
      assert ValidPairs(starts, ends, points) == ValidPairs(starts[..n], ends, points) + PairsWith(starts[n], ends, points);
      forall a, b | 0 <= a < |starts| && 0 <= b < |ends| && starts[a].index < ends[b].index
        ensures PairOf(starts[a], ends[b], points)[0] in ValidPairs(starts, ends, points)
      {
        if a < n {
          assert starts[..n][a] == starts[a];
        }
      }
    }
  }

  /** A route yields pairs exactly when some start index lies below some end index. */
  lemma ValidPairsNonEmpty(starts: seq<StopMatch>, ends: seq<StopMatch>, points: seq<Point>)
    requires InRange(starts, points) && InRange(ends, points)
    ensures ValidPairs(starts, ends, points) != [] <==>
              exists a, b :: 0 <= a < |starts| && 0 <= b < |ends| && starts[a].index < ends[b].index
  {
    ValidPairsSound(starts, ends, points);
    ValidPairsComplete(starts, ends, points);
    if ValidPairs(starts, ends, points) != [] {
      var p := ValidPairs(starts, ends, points)[0];
      assert PairedFrom(p, starts, ends, points);
      var a :| 0 <= a < |starts| && starts[a] == StopMatch(p.startIdx, p.startTier);
      var b :| 0 <= b < |ends| && ends[b] == StopMatch(p.endIdx, p.endTier);
      assert starts[a].index < ends[b].index;
    }
  }

  /** The combined priority of a pair, from 2 to 6. */
  function Score(p: Pairing): nat {
    Priority(p.startTier) + Priority(p.endTier)
  }

  const MaxScore: nat := 6

  /** The pairs of combined priority `q`, in their original order. */
  function Keep(ps: seq<Pairing>, q: nat): seq<Pairing> {
    if ps == [] then []
    else Keep(ps[..|ps| - 1], q) + (if Score(ps[|ps| - 1]) == q then [ps[|ps| - 1]] else [])
  }

  /** The pairs of priority `q`, then those of `q - 1`, down to 0. */
  function Buckets(ps: seq<Pairing>, q: nat): seq<Pairing> {
    Keep(ps, q) + (if q == 0 then [] else Buckets(ps, q - 1))
  }

  /** `valid_routes.sort(key=priority, reverse=True)`. Python's sort stays stable
      when reversed, so this is a stable sort by descending combined priority. */
  function SortByPriority(ps: seq<Pairing>): seq<Pairing> {
    Buckets(ps, MaxScore)
  }

  lemma {:induction false} KeepMembers(ps: seq<Pairing>, q: nat)
    ensures forall p :: p in Keep(ps, q) ==> p in ps && Score(p) == q
  {
    if ps != [] {
      KeepMembers(ps[..|ps| - 1], q);
    }
  }

  lemma {:induction false} BucketsMembers(ps: seq<Pairing>, n: nat)
    ensures forall p :: p in Buckets(ps, n) ==> p in ps && Score(p) <= n
  {
    KeepMembers(ps, n);
    if n > 0 {
      BucketsMembers(ps, n - 1);
    }
  }

  lemma {:induction false} KeepConcat(a: seq<Pairing>, b: seq<Pairing>, q: nat)
    ensures Keep(a + b, q) == Keep(a, q) + Keep(b, q)
    decreases |b|
  {
    if b == [] {
      assert a + b == a;
    } else {
      var n := |b| - 1;
      assert (a + b)[..|a + b| - 1] == a + b[..n];
      KeepConcat(a, b[..n], q);
    }
  }

  lemma {:induction false} KeepKeep(ps: seq<Pairing>, q: nat, q': nat)
    ensures Keep(Keep(ps, q'), q) == if q == q' then Keep(ps, q) else []
  {
    if ps != [] {
      var n := |ps| - 1;
      KeepKeep(ps[..n], q, q');
      var tail := if Score(ps[n]) == q' then [ps[n]] else [];
      KeepConcat(Keep(ps[..n], q'), tail, q);
      if tail != [] {
        assert Keep(tail, q) == Keep([], q) + (if Score(ps[n]) == q then [ps[n]] else []);
      }
    }
  }

  lemma {:induction false} KeepBuckets(ps: seq<Pairing>, n: nat, q: nat)
    ensures Keep(Buckets(ps, n), q) == if q <= n then Keep(ps, q) else []
  {
    var k := Keep(ps, n);
    KeepKeep(ps, q, n);
    if n == 0 {
      assert Buckets(ps, n) == k;
    } else {
      KeepBucketsStep(ps, n, q);
      KeepBuckets(ps, n - 1, q);
    }
  }

  lemma KeepBucketsStep(ps: seq<Pairing>, n: nat, q: nat)
    requires n > 0
    ensures Keep(Buckets(ps, n), q) == Keep(Keep(ps, n), q) + Keep(Buckets(ps, n - 1), q)
  {
    KeepConcat(Keep(ps, n), Buckets(ps, n - 1), q);
  }

  lemma {:induction false} KeepCount(ps: seq<Pairing>, p: Pairing)
    ensures multiset(Keep(ps, Score(p)))[p] == multiset(ps)[p]
  {
    if ps != [] {
      var n := |ps| - 1;
      KeepCount(ps[..n], p);
      assert ps == ps[..n] + [ps[n]];
    }
  }

  /** Sorting keeps the order of the pairs within each priority. */
  lemma SortByPriorityStable(ps: seq<Pairing>, q: nat)
    ensures Keep(SortByPriority(ps), q) == Keep(ps, q)
  {
    KeepBuckets(ps, MaxScore, q);
    KeepMembers(ps, q);
    if q > MaxScore && Keep(ps, q) != [] {
      assert Keep(ps, q)[0] in Keep(ps, q);
    }
  }

  /** Sorting only reorders the pairs. */
  lemma SortByPriorityPermutes(ps: seq<Pairing>)
    ensures multiset(SortByPriority(ps)) == multiset(ps)
    ensures |SortByPriority(ps)| == |ps|
  {
    var r := SortByPriority(ps);
    forall p ensures multiset(r)[p] == multiset(ps)[p] {
      SortByPriorityStable(ps, Score(p));
      KeepCount(r, p);
      KeepCount(ps, p);
    }
    assert multiset(r) == multiset(ps);
    assert |multiset(r)| == |multiset(ps)|;
  }

  /** Combined priorities never increase along `r`. */
  predicate Descending(r: seq<Pairing>) {
    forall i, j :: 0 <= i < j < |r| ==> Score(r[i]) >= Score(r[j])
  }

  lemma {:induction false} BucketsDescending(ps: seq<Pairing>, n: nat)
    ensures Descending(Buckets(ps, n))
  {
    KeepMembers(ps, n);
    if n == 0 {
      assert Buckets(ps, n) == Keep(ps, n);
    } else {
      BucketsDescending(ps, n - 1);
      BucketsMembers(ps, n - 1);
      DescendingConcat(Keep(ps, n), Buckets(ps, n - 1), n);
    }
  }

  /** Pairs of priority `n` ahead of a descending run of lower priorities stay descending. */
  lemma DescendingConcat(k: seq<Pairing>, rest: seq<Pairing>, n: nat)
    requires forall p :: p in k ==> Score(p) == n
    requires forall p :: p in rest ==> Score(p) < n
    requires Descending(rest)
    ensures Descending(k + rest)
  {
    var r := k + rest;
    forall i, j | 0 <= i < j < |r| ensures Score(r[i]) >= Score(r[j]) {
      if j < |k| {
        assert r[i] in k && r[j] in k;
      } else if i < |k| {
        assert r[i] in k && r[j] == rest[j - |k|] && rest[j - |k|] in rest;
      } else {
        assert r[i] == rest[i - |k|] && r[j] == rest[j - |k|];
      }
    }
  }

  /** The sorted pairs run from highest to lowest combined priority, so the first
      one (the match the bot reports) has the highest priority of all. */
  lemma SortByPriorityOrdered(ps: seq<Pairing>)
    ensures Descending(SortByPriority(ps))
    ensures ps != [] ==> SortByPriority(ps) != [] && forall p :: p in ps ==> Score(SortByPriority(ps)[0]) >= Score(p)
  {
    BucketsDescending(ps, MaxScore);
    SortByPriorityPermutes(ps);
    var r := SortByPriority(ps);
    forall p | p in ps ensures Score(r[0]) >= Score(p) {
      assert p in multiset(r);
      var j :| 0 <= j < |r| && r[j] == p;
    }
  }

  /** Some stop matching the start comes strictly before some stop matching the end. */
  predicate Qualifies(startLandmark: string, endLandmark: string, points: seq<Point>) {
    var startTiers := Tiers(Clean(startLandmark), points);
    var endTiers := Tiers(Clean(endLandmark), points);
    exists i, j :: 0 <= i < j < |points| && startTiers[i].Some? && endTiers[j].Some?
  }

  /** An entry of `direct_routes`: the route and its sorted pairs. */
  datatype DirectRoute = DirectRoute(route: Route, matches: seq<Pairing>)

  /** The entry one route contributes to `direct_routes`, if any. */
  function DirectEntry(startLandmark: string, endLandmark: string, route: Route): Option<DirectRoute> {
    var points := route.keyPoints;
    if points == [] then None
    else
      var starts := StopMatches(startLandmark, points);
      var ends := StopMatches(endLandmark, points);
      if starts == [] || ends == [] then None
      else
        var pairs := ValidPairs(starts, ends, points);
        if pairs == [] then None else Some(DirectRoute(route, SortByPriority(pairs)))
  }

  /** An ordered pair of matching stops shows up as an ordered pair of reports. */
  lemma CollectOrderedIf(startTiers: seq<Option<Tier>>, endTiers: seq<Option<Tier>>)
    requires |startTiers| == |endTiers|
    ensures var starts := Collect(startTiers, |startTiers|);
      var ends := Collect(endTiers, |endTiers|);
      (exists i, j :: 0 <= i < j < |startTiers| && startTiers[i].Some? && endTiers[j].Some?) ==>
        exists a, b :: 0 <= a < |starts| && 0 <= b < |ends| && starts[a].index < ends[b].index
  {
    if exists i, j :: 0 <= i < j < |startTiers| && startTiers[i].Some? && endTiers[j].Some? {
      var i, j :| 0 <= i < j < |startTiers| && startTiers[i].Some? && endTiers[j].Some?;
      CollectOrderedAt(startTiers, endTiers, i, j);
    }
  }

  lemma CollectOrderedAt(startTiers: seq<Option<Tier>>, endTiers: seq<Option<Tier>>, i: nat, j: nat)
    requires i < j < |startTiers| == |endTiers|
    requires startTiers[i].Some? && endTiers[j].Some?
    ensures var starts := Collect(startTiers, |startTiers|);
      var ends := Collect(endTiers, |endTiers|);
      exists a, b :: 0 <= a < |starts| && 0 <= b < |ends| && starts[a].index < ends[b].index
  {
    var starts := Collect(startTiers, |startTiers|);
    var ends := Collect(endTiers, |endTiers|);
    CollectComplete(startTiers, |startTiers|, i);
    CollectComplete(endTiers, |endTiers|, j);
    var a :| 0 <= a < |starts| && starts[a].index == i;
    var b :| 0 <= b < |ends| && ends[b].index == j;
  }

  /** An ordered pair of reports comes from an ordered pair of matching stops. */
  lemma CollectOrderedOnlyIf(startTiers: seq<Option<Tier>>, endTiers: seq<Option<Tier>>)
    requires |startTiers| == |endTiers|
    ensures var starts := Collect(startTiers, |startTiers|);
      var ends := Collect(endTiers, |endTiers|);
      (exists a, b :: 0 <= a < |starts| && 0 <= b < |ends| && starts[a].index < ends[b].index) ==>
        exists i, j :: 0 <= i < j < |startTiers| && startTiers[i].Some? && endTiers[j].Some?
  {
    var starts := Collect(startTiers, |startTiers|);
    var ends := Collect(endTiers, |endTiers|);
    if exists a, b :: 0 <= a < |starts| && 0 <= b < |ends| && starts[a].index < ends[b].index {
      var a, b :| 0 <= a < |starts| && 0 <= b < |ends| && starts[a].index < ends[b].index;
      CollectSound(startTiers, |startTiers|);
      CollectSound(endTiers, |endTiers|);
      var i, j := starts[a].index, ends[b].index;
      assert 0 <= i < j < |startTiers| && startTiers[i].Some? && endTiers[j].Some?;
    }
  }

  lemma CollectOrdered(startTiers: seq<Option<Tier>>, endTiers: seq<Option<Tier>>)
    requires |startTiers| == |endTiers|
    ensures var starts := Collect(startTiers, |startTiers|);
      var ends := Collect(endTiers, |endTiers|);
      (exists i, j :: 0 <= i < j < |startTiers| && startTiers[i].Some? && endTiers[j].Some?) <==>
        exists a, b :: 0 <= a < |starts| && 0 <= b < |ends| && starts[a].index < ends[b].index
  {
    CollectOrderedIf(startTiers, endTiers);
    CollectOrderedOnlyIf(startTiers, endTiers);
  }

  lemma QualifiesIff(startLandmark: string, endLandmark: string, points: seq<Point>)
    ensures var starts := StopMatches(startLandmark, points);
      var ends := StopMatches(endLandmark, points);
      Qualifies(startLandmark, endLandmark, points) <==>
        exists a, b :: 0 <= a < |starts| && 0 <= b < |ends| && starts[a].index < ends[b].index
  {
    var startTiers := Tiers(Clean(startLandmark), points);
    var endTiers := Tiers(Clean(endLandmark), points);
    assert StopMatches(startLandmark, points) == Collect(startTiers, |startTiers|);
    assert StopMatches(endLandmark, points) == Collect(endTiers, |endTiers|);
    CollectOrdered(startTiers, endTiers);
  }

  /** A route enters `direct_routes` exactly when a start stop precedes an end
      stop on it (so never with an empty stop list). Its pairs are sound, run
      from highest to lowest priority, and the first has the highest priority
      of all pairs on the route. */
  lemma DirectEntryQualifies(startLandmark: string, endLandmark: string, route: Route)
    ensures DirectEntry(startLandmark, endLandmark, route).Some? <==>
              Qualifies(startLandmark, endLandmark, route.keyPoints)
  {
    var points := route.keyPoints;
    QualifiesIff(startLandmark, endLandmark, points);
    ValidPairsNonEmpty(StopMatches(startLandmark, points), StopMatches(endLandmark, points), points);
  }

  lemma DirectEntrySpec(startLandmark: string, endLandmark: string, route: Route)
    ensures route.keyPoints == [] ==> DirectEntry(startLandmark, endLandmark, route).None?
    ensures DirectEntry(startLandmark, endLandmark, route).Some? ==>
              var d := DirectEntry(startLandmark, endLandmark, route).value;
              var starts := StopMatches(startLandmark, route.keyPoints);
              var ends := StopMatches(endLandmark, route.keyPoints);
              && d.route == route
              && d.matches != []
              && (forall p :: p in d.matches ==> PairedFrom(p, starts, ends, route.keyPoints))
              && Descending(d.matches)
              && (forall p :: p in ValidPairs(starts, ends, route.keyPoints) ==> Score(d.matches[0]) >= Score(p))
  {
    var points := route.keyPoints;
    var starts := StopMatches(startLandmark, points);
    var ends := StopMatches(endLandmark, points);
    var pairs := ValidPairs(starts, ends, points);
    ValidPairsSound(starts, ends, points);
    SortByPriorityPermutes(pairs);
    SortByPriorityOrdered(pairs);
    var sorted := SortByPriority(pairs);
    forall p | p in sorted ensures PairedFrom(p, starts, ends, points) {
      assert p in multiset(pairs);
    }
  }

  /** `direct_routes`, in route order. */
  function DirectRoutes(startLandmark: string, endLandmark: string, routes: seq<Route>): seq<DirectRoute> {
    if routes == [] then []
    else
      var last := routes[|routes| - 1];
      DirectRoutes(startLandmark, endLandmark, routes[..|routes| - 1])
      + match DirectEntry(startLandmark, endLandmark, last)
        case None => []
        case Some(d) => [d]
  }

  /** Every entry comes from a listed route and is that route's entry. */
  lemma {:induction false} DirectRoutesSound(startLandmark: string, endLandmark: string, routes: seq<Route>)
    ensures forall d :: d in DirectRoutes(startLandmark, endLandmark, routes) ==>
              d.route in routes && DirectEntry(startLandmark, endLandmark, d.route) == Some(d)
  {
    if routes != [] {
      var n := |routes| - 1;
      DirectRoutesSound(startLandmark, endLandmark, routes[..n]);
      forall d | d in DirectRoutes(startLandmark, endLandmark, routes)
        ensures d.route in routes && DirectEntry(startLandmark, endLandmark, d.route) == Some(d)
      {
        if d in DirectRoutes(startLandmark, endLandmark, routes[..n]) {
          assert d.route in routes[..n];
        }
      }
    }
  }

  /** The list is empty exactly when no route qualifies. */
  lemma {:induction false} DirectRoutesEmpty(startLandmark: string, endLandmark: string, routes: seq<Route>)
    ensures DirectRoutes(startLandmark, endLandmark, routes) == [] <==>
              forall r :: r in routes ==> !Qualifies(startLandmark, endLandmark, r.keyPoints)
  {
    if routes != [] {
      var n := |routes| - 1;
      DirectRoutesEmpty(startLandmark, endLandmark, routes[..n]);
      DirectEntryQualifies(startLandmark, endLandmark, routes[n]);
      if DirectRoutes(startLandmark, endLandmark, routes[..n]) != [] {
        var r :| r in routes[..n] && Qualifies(startLandmark, endLandmark, r.keyPoints);
        assert r in routes;
      } else {
        assert routes == routes[..n] + [routes[n]];
      }
    }
  }

  /** Some stop of the route, lower-cased, contains the lower-cased name
      (no trimming here, and non-string stops count by their text). */
  predicate Serves(name: string, points: seq<Point>) {
    exists k | 0 <= k < |points| :: Contains(Lower(Shown(points[k])), Lower(name))
  }

  /** Two stop names that can serve as a transfer point: equal ignoring case,
      or both longer than five characters with one containing the other. */
  predicate SharedName(a: string, b: string) {
    || Lower(a) == Lower(b)
    || (|a| > 5 && |b| > 5 && (Contains(Lower(b), Lower(a)) || Contains(Lower(a), Lower(b))))
  }

  /** The inner loop over route 2's stops for one stop of route 1. */
  function SharedWith(p1: Point, points2: seq<Point>): seq<string> {
    if points2 == [] then []
    else
      var p2 := points2[|points2| - 1];
      SharedWith(p1, points2[..|points2| - 1])
      + (if p1.Str? && p2.Str? && SharedName(p1.text, p2.text) then [p1.text] else [])
  }

  /** `common_points`: a stop of route 1, once per stop of route 2 it is shared with. */
  function CommonPoints(points1: seq<Point>, points2: seq<Point>): seq<string> {
    if points1 == [] then []
    else CommonPoints(points1[..|points1| - 1], points2) + SharedWith(points1[|points1| - 1], points2)
  }

  /** `t` is a string stop of route 1 shared with some string stop of route 2. */
  predicate TransferPoint(t: string, points1: seq<Point>, points2: seq<Point>) {
    Str(t) in points1 && exists l :: 0 <= l < |points2| && points2[l].Str? && SharedName(t, points2[l].text)
  }

  /** Each copy of the route-1 stop in `SharedWith` is matched by a route-2 stop. */
  lemma {:induction false} SharedWithSound(p1: Point, points2: seq<Point>)
    ensures forall t :: t in SharedWith(p1, points2) ==>
              p1 == Str(t) && exists l :: 0 <= l < |points2| && points2[l].Str? && SharedName(t, points2[l].text)
  {
    if points2 != [] {
      var n := |points2| - 1;
      SharedWithSound(p1, points2[..n]);
      forall t | t in SharedWith(p1, points2[..n])
        ensures exists l :: 0 <= l < |points2| && points2[l].Str? && SharedName(t, points2[l].text)
      {
        var l :| 0 <= l < n && points2[..n][l].Str? && SharedName(t, points2[..n][l].text);
        assert points2[l] == points2[..n][l];
      }
    }
  }

  /** A string stop whose name some string stop of the other route shares. */
  predicate SharesStop(p1: Point, points2: seq<Point>) {
    p1.Str? && exists l :: 0 <= l < |points2| && points2[l].Str? && SharedName(p1.text, points2[l].text)
  }

  /** The route-1 stop is reported exactly when some route-2 stop shares its name. */
  lemma {:induction false} SharedWithNonEmpty(p1: Point, points2: seq<Point>)
    ensures SharedWith(p1, points2) != [] <==> SharesStop(p1, points2)
  {
    if points2 != [] {
      var n := |points2| - 1;
      SharedWithNonEmpty(p1, points2[..n]);
      if SharesStop(p1, points2) {
        var l :| 0 <= l < |points2| && points2[l].Str? && SharedName(p1.text, points2[l].text);
        if l < n {
          assert points2[..n][l] == points2[l];
          assert SharesStop(p1, points2[..n]);
        }
      }
      if SharedWith(p1, points2[..n]) != [] {
        var l :| 0 <= l < n && points2[..n][l].Str? && SharedName(p1.text, points2[..n][l].text);
        assert points2[..n][l] == points2[l];
      }
    }
  }

  /** Every reported transfer point is a string stop of route 1 shared with a
      string stop of route 2. */
  lemma {:induction false} CommonPointsSound(points1: seq<Point>, points2: seq<Point>)
    ensures forall t :: t in CommonPoints(points1, points2) ==> TransferPoint(t, points1, points2)
  {
    if points1 != [] {
      var n := |points1| - 1;
      CommonPointsSound(points1[..n], points2);
      SharedWithSound(points1[n], points2);
      forall t | t in CommonPoints(points1, points2) ensures TransferPoint(t, points1, points2) {
        if t in CommonPoints(points1[..n], points2) {
          assert Str(t) in points1[..n];
        }
      }
    }
  }

  /** There is a transfer point exactly when a string stop of route 1 shares
      its name with a string stop of route 2. */
  lemma {:induction false} CommonPointsNonEmpty(points1: seq<Point>, points2: seq<Point>)
    ensures CommonPoints(points1, points2) != [] <==> exists k :: 0 <= k < |points1| && SharesStop(points1[k], points2)
  {
    if points1 != [] {
      var n := |points1| - 1;
      CommonPointsNonEmpty(points1[..n], points2);
      SharedWithNonEmpty(points1[n], points2);
      if exists k :: 0 <= k < |points1| && SharesStop(points1[k], points2) {
        var k :| 0 <= k < |points1| && SharesStop(points1[k], points2);
        if k < n {
          assert points1[..n][k] == points1[k];
        }
      }
      if CommonPoints(points1[..n], points2) != [] {
        var k :| 0 <= k < n && SharesStop(points1[..n][k], points2);
        assert points1[..n][k] == points1[k];
      }
    }
  }

  /** An entry of `potential_connections`. */
  datatype Transfer = Transfer(route1: Route, route2: Route, transferPoints: seq<string>)

  /** The entry a pair of routes contributes, if any: distinct routes, the first
      serving the start, the second the end, with a shared stop. */
  function TransferFor(startLandmark: string, endLandmark: string, route1: Route, route2: Route): Option<Transfer> {
    if route1 == route2 then None
    else if Serves(startLandmark, route1.keyPoints) && Serves(endLandmark, route2.keyPoints) then
      var common := CommonPoints(route1.keyPoints, route2.keyPoints);
      if common == [] then None else Some(Transfer(route1, route2, common))
    else None
  }

  /** The inner loop over the second route. */
  function TransfersFrom(startLandmark: string, endLandmark: string, route1: Route, routes2: seq<Route>): seq<Transfer> {
    if routes2 == [] then []
    else
      TransfersFrom(startLandmark, endLandmark, route1, routes2[..|routes2| - 1])
      + match TransferFor(startLandmark, endLandmark, route1, routes2[|routes2| - 1])
        case None => []
        case Some(t) => [t]
  }

  /** `potential_connections`: first routes outer, second routes inner. */
  function Transfers(startLandmark: string, endLandmark: string, routes1: seq<Route>, routes2: seq<Route>): seq<Transfer> {
    if routes1 == [] then []
    else
      Transfers(startLandmark, endLandmark, routes1[..|routes1| - 1], routes2)
      + TransfersFrom(startLandmark, endLandmark, routes1[|routes1| - 1], routes2)
  }

  /** What one connection entry guarantees. */
  predicate SoundTransfer(startLandmark: string, endLandmark: string, c: Transfer, routes: seq<Route>) {
    && c.route1 in routes && c.route2 in routes
    && c.route1 != c.route2
    && Serves(startLandmark, c.route1.keyPoints)
    && Serves(endLandmark, c.route2.keyPoints)
    && c.transferPoints != []
    && forall t :: t in c.transferPoints ==> TransferPoint(t, c.route1.keyPoints, c.route2.keyPoints)
  }

  lemma TransferForSound(startLandmark: string, endLandmark: string, route1: Route, route2: Route, routes: seq<Route>)
    requires route1 in routes && route2 in routes
    requires TransferFor(startLandmark, endLandmark, route1, route2).Some?
    ensures SoundTransfer(startLandmark, endLandmark, TransferFor(startLandmark, endLandmark, route1, route2).value, routes)
  {
    CommonPointsSound(route1.keyPoints, route2.keyPoints);
  }

  lemma {:induction false} TransfersFromSound(startLandmark: string, endLandmark: string, route1: Route,
                                              routes2: seq<Route>, routes: seq<Route>)
    requires route1 in routes && forall r :: r in routes2 ==> r in routes
    ensures forall c :: c in TransfersFrom(startLandmark, endLandmark, route1, routes2) ==>
              SoundTransfer(startLandmark, endLandmark, c, routes)
  {
    if routes2 != [] {
      var n := |routes2| - 1;
      TransfersFromSound(startLandmark, endLandmark, route1, routes2[..n], routes);
      if TransferFor(startLandmark, endLandmark, route1, routes2[n]).Some? {
        TransferForSound(startLandmark, endLandmark, route1, routes2[n], routes);
      }
    }
  }

  /** Every connection pairs two different listed routes, the first serving the
      start and the second the end, through shared stops. */
  lemma {:induction false} TransfersSound(startLandmark: string, endLandmark: string, routes1: seq<Route>, routes: seq<Route>)
    requires forall r :: r in routes1 ==> r in routes
    ensures forall c :: c in Transfers(startLandmark, endLandmark, routes1, routes) ==>
              SoundTransfer(startLandmark, endLandmark, c, routes)
  {
    if routes1 != [] {
      var n := |routes1| - 1;
      TransfersSound(startLandmark, endLandmark, routes1[..n], routes);
      TransfersFromSound(startLandmark, endLandmark, routes1[n], routes, routes);
    }
  }

  /** Two distinct routes, the first serving the start and the second the end,
      with a string stop of the first shared by the second. */
  predicate Connects(startLandmark: string, endLandmark: string, route1: Route, route2: Route) {
    && route1 != route2
    && Serves(startLandmark, route1.keyPoints)
    && Serves(endLandmark, route2.keyPoints)
    && exists k :: 0 <= k < |route1.keyPoints| && SharesStop(route1.keyPoints[k], route2.keyPoints)
  }

  /** A pair of routes contributes exactly when it connects, and then with all
      its common points. */
  lemma TransferForIff(startLandmark: string, endLandmark: string, route1: Route, route2: Route)
    ensures TransferFor(startLandmark, endLandmark, route1, route2)
            == if Connects(startLandmark, endLandmark, route1, route2)
               then Some(Transfer(route1, route2, CommonPoints(route1.keyPoints, route2.keyPoints)))
               else None
  {
    CommonPointsNonEmpty(route1.keyPoints, route2.keyPoints);
  }

  /** The inner loop adds the entry of every second route that contributes one. */
  lemma {:induction false} TransfersFromComplete(startLandmark: string, endLandmark: string, route1: Route,
                                                 routes2: seq<Route>, j: nat)
    requires j < |routes2| && TransferFor(startLandmark, endLandmark, route1, routes2[j]).Some?
    ensures TransferFor(startLandmark, endLandmark, route1, routes2[j]).value
            in TransfersFrom(startLandmark, endLandmark, route1, routes2)
    decreases |routes2|
  {
    var n := |routes2| - 1;
    if j < n {
      assert routes2[..n][j] == routes2[j];
      TransfersFromComplete(startLandmark, endLandmark, route1, routes2[..n], j);
    }
  }

  /** What the inner loop adds for any first route ends up among the potential
      connections. */
  lemma {:induction false} TransfersComplete(startLandmark: string, endLandmark: string,
                                             routes1: seq<Route>, routes2: seq<Route>, i: nat, t: Transfer)
    requires i < |routes1| && t in TransfersFrom(startLandmark, endLandmark, routes1[i], routes2)
    ensures t in Transfers(startLandmark, endLandmark, routes1, routes2)
    decreases |routes1|
  {
    var n := |routes1| - 1;
    if i < n {
      assert routes1[..n][i] == routes1[i];
      TransfersComplete(startLandmark, endLandmark, routes1[..n], routes2, i, t);
    }
  }

  /** When no route qualifies, every connecting pair of listed routes is offered
      as a transfer, with its common points. */
  lemma FindRouteTransfers(startLandmark: string, endLandmark: string, routes: seq<Route>, i: nat, j: nat)
    requires i < |routes| && j < |routes|
    requires forall r :: r in routes ==> !Qualifies(startLandmark, endLandmark, r.keyPoints)
    requires Connects(startLandmark, endLandmark, routes[i], routes[j])
    ensures FindRoute(startLandmark, endLandmark, routes).TransfersFound?
    ensures Transfer(routes[i], routes[j], CommonPoints(routes[i].keyPoints, routes[j].keyPoints))
            in FindRoute(startLandmark, endLandmark, routes).options
  {
    DirectRoutesEmpty(startLandmark, endLandmark, routes);
    TransferForIff(startLandmark, endLandmark, routes[i], routes[j]);
    TransfersFromComplete(startLandmark, endLandmark, routes[i], routes, j);
    TransfersComplete(startLandmark, endLandmark, routes, routes, i,
                      Transfer(routes[i], routes[j], CommonPoints(routes[i].keyPoints, routes[j].keyPoints)));
  }

  /** The structured result of `find_route_logic`. */
  datatype RouteAnswer =
    | DirectRoutesFound(routes: seq<DirectRoute>)
    | TransfersFound(options: seq<Transfer>)
    | NoRouteFound

  /** Direct routes when there are any; only otherwise transfers; else nothing. */
  function FindRoute(startLandmark: string, endLandmark: string, routes: seq<Route>): RouteAnswer {
    var direct := DirectRoutes(startLandmark, endLandmark, routes);
    if direct != [] then DirectRoutesFound(direct)
    else
      var transfers := Transfers(startLandmark, endLandmark, routes, routes);
      if transfers != [] then TransfersFound(transfers) else NoRouteFound
  }

  /** The answer is direct exactly when some route has a start stop before an end
      stop; transfers are offered only when no route does, and each is sound. */
  lemma FindRouteSpec(startLandmark: string, endLandmark: string, routes: seq<Route>)
    ensures FindRoute(startLandmark, endLandmark, routes).DirectRoutesFound? <==>
              exists r :: r in routes && Qualifies(startLandmark, endLandmark, r.keyPoints)
    ensures FindRoute(startLandmark, endLandmark, routes).TransfersFound? ==>
              && (forall r :: r in routes ==> !Qualifies(startLandmark, endLandmark, r.keyPoints))
              && forall c :: c in FindRoute(startLandmark, endLandmark, routes).options ==>
                   SoundTransfer(startLandmark, endLandmark, c, routes)
    ensures (forall r :: r in routes ==> !Qualifies(startLandmark, endLandmark, r.keyPoints)) ==>
              forall i, j :: 0 <= i < |routes| && 0 <= j < |routes| && Connects(startLandmark, endLandmark, routes[i], routes[j]) ==>
                && FindRoute(startLandmark, endLandmark, routes).TransfersFound?
                && Transfer(routes[i], routes[j], CommonPoints(routes[i].keyPoints, routes[j].keyPoints))
                   in FindRoute(startLandmark, endLandmark, routes).options
  {
    DirectRoutesEmpty(startLandmark, endLandmark, routes);
    TransfersSound(startLandmark, endLandmark, routes, routes);
    if forall r :: r in routes ==> !Qualifies(startLandmark, endLandmark, r.keyPoints) {
      forall i, j | 0 <= i < |routes| && 0 <= j < |routes| && Connects(startLandmark, endLandmark, routes[i], routes[j])
        ensures && FindRoute(startLandmark, endLandmark, routes).TransfersFound?
                && Transfer(routes[i], routes[j], CommonPoints(routes[i].keyPoints, routes[j].keyPoints))
                   in FindRoute(startLandmark, endLandmark, routes).options
      {
        FindRouteTransfers(startLandmark, endLandmark, routes, i, j);
      }
    }
  }

  lemma PairsWithStep(s: StopMatch, ends: seq<StopMatch>, points: seq<Point>, b: nat)
    requires s.index < |points| && InRange(ends, points) && b < |ends|
    ensures PairsWith(s, ends[..b + 1], points) == PairsWith(s, ends[..b], points) + PairOf(s, ends[b], points)
  {
    assert ends[..b + 1][..b] == ends[..b];
  }

  lemma ValidPairsStep(starts: seq<StopMatch>, ends: seq<StopMatch>, points: seq<Point>, a: nat)
    requires InRange(starts, points) && InRange(ends, points) && a < |starts|
    ensures ValidPairs(starts[..a + 1], ends, points) == ValidPairs(starts[..a], ends, points) + PairsWith(starts[a], ends, points)
  {
    assert starts[..a + 1][..a] == starts[..a];
  }

  /** The inner loop of `valid_routes` for one start match. */
  method PairWithEnds(acc: seq<Pairing>, s: StopMatch, endMatches: seq<StopMatch>, keyPoints: seq<Point>)
    returns (validRoutes: seq<Pairing>)
    requires s.index < |keyPoints| && InRange(endMatches, keyPoints)
    ensures validRoutes == acc + PairsWith(s, endMatches, keyPoints)
  {
    validRoutes := acc;
    for b := 0 to |endMatches|
      invariant validRoutes == acc + PairsWith(s, endMatches[..b], keyPoints)
    {
      var e := endMatches[b];
      PairsWithStep(s, endMatches, keyPoints, b);
      if s.index < e.index {
        validRoutes := validRoutes + [Pairing(s.index, e.index, s.tier, e.tier, keyPoints[s.index], keyPoints[e.index])];
      }
    }
    assert endMatches[..|endMatches|] == endMatches;
  }

  /** The nested loops that fill `valid_routes`: every start match before an
      end match, start matches outer. */
  method PairMatches(startMatches: seq<StopMatch>, endMatches: seq<StopMatch>, keyPoints: seq<Point>)
    returns (validRoutes: seq<Pairing>)
    requires InRange(startMatches, keyPoints) && InRange(endMatches, keyPoints)
    ensures validRoutes == ValidPairs(startMatches, endMatches, keyPoints)
  {
    validRoutes := [];
    for a := 0 to |startMatches|
      invariant validRoutes == ValidPairs(startMatches[..a], endMatches, keyPoints)
    {
      ValidPairsStep(startMatches, endMatches, keyPoints, a);
      validRoutes := PairWithEnds(validRoutes, startMatches[a], endMatches, keyPoints);
    }
    assert startMatches[..|startMatches|] == startMatches;
  }

  /** The body of `find_route_logic`'s first loop for one route: its entry in
      `direct_routes`, if any. */
  method MatchRoute(startLandmark: string, endLandmark: string, route: Route) returns (entry: Option<DirectRoute>)
    ensures entry == DirectEntry(startLandmark, endLandmark, route)
  {
    var keyPoints := route.keyPoints;
    if keyPoints == [] {
      return None;
    }
    var startMatches := FindLocationInRoute(startLandmark, keyPoints);
    var endMatches := FindLocationInRoute(endLandmark, keyPoints);
    if startMatches == [] || endMatches == [] {
      return None;
    }
    var validRoutes := PairMatches(startMatches, endMatches, keyPoints);
    if validRoutes == [] {
      return None;
    }
    validRoutes := SortByPriority(validRoutes);
    return Some(DirectRoute(route, validRoutes));
  }

  /** The two nested loops that fill `common_points`. */
  method CommonPointsOf(route1Points: seq<Point>, route2Points: seq<Point>) returns (commonPoints: seq<string>)
    ensures commonPoints == CommonPoints(route1Points, route2Points)
  {
    commonPoints := [];
    for k := 0 to |route1Points|
      invariant commonPoints == CommonPoints(route1Points[..k], route2Points)
    {
      var p1 := route1Points[k];
      for l := 0 to |route2Points|
        invariant commonPoints == CommonPoints(route1Points[..k], route2Points) + SharedWith(p1, route2Points[..l])
      {
        var p2 := route2Points[l];
        if p1.Str? && p2.Str? {
          if SharedName(p1.text, p2.text) {
            commonPoints := commonPoints + [p1.text];
          }
        }
        assert route2Points[..l + 1][..l] == route2Points[..l];
      }
      assert route2Points[..|route2Points|] == route2Points;
      assert route1Points[..k + 1][..k] == route1Points[..k];
    }
    assert route1Points[..|route1Points|] == route1Points;
  }

  /** One step of the inner transfer loop: the entry the pair contributes. */
  method PairTransfer(startLandmark: string, endLandmark: string, route1: Route, route2: Route) returns (entry: Option<Transfer>)
    ensures entry == TransferFor(startLandmark, endLandmark, route1, route2)
  {
    entry := None;
    if route1 != route2 {
      var route1Points := route1.keyPoints;
      var route2Points := route2.keyPoints;
      var route1HasStart := Serves(startLandmark, route1Points);
      var route2HasEnd := Serves(endLandmark, route2Points);
      if route1HasStart && route2HasEnd {
        var commonPoints := CommonPointsOf(route1Points, route2Points);
        if commonPoints != [] {
          entry := Some(Transfer(route1, route2, commonPoints));
        }
      }
    }
  }

  lemma TransfersFromStep(startLandmark: string, endLandmark: string, route1: Route, routes2: seq<Route>, j: nat)
    requires j < |routes2|
    ensures TransfersFrom(startLandmark, endLandmark, route1, routes2[..j + 1])
      == TransfersFrom(startLandmark, endLandmark, route1, routes2[..j])
         + match TransferFor(startLandmark, endLandmark, route1, routes2[j]) case None => [] case Some(t) => [t]
  {
    assert routes2[..j + 1][..j] == routes2[..j];
  }

  lemma TransfersStep(startLandmark: string, endLandmark: string, routes1: seq<Route>, routes2: seq<Route>, i: nat)
    requires i < |routes1|
    ensures Transfers(startLandmark, endLandmark, routes1[..i + 1], routes2)
      == Transfers(startLandmark, endLandmark, routes1[..i], routes2) + TransfersFrom(startLandmark, endLandmark, routes1[i], routes2)
  {
    assert routes1[..i + 1][..i] == routes1[..i];
  }

  /** The inner loop of `find_route_logic`'s transfer search, for one first route. */
  method TransfersFromOf(acc: seq<Transfer>, startLandmark: string, endLandmark: string, route1: Route, routesData: seq<Route>)
    returns (potentialConnections: seq<Transfer>)
    ensures potentialConnections == acc + TransfersFrom(startLandmark, endLandmark, route1, routesData)
  {
    potentialConnections := acc;
    for j := 0 to |routesData|
      invariant potentialConnections == acc + TransfersFrom(startLandmark, endLandmark, route1, routesData[..j])
    {
      TransfersFromStep(startLandmark, endLandmark, route1, routesData, j);
      var entry := PairTransfer(startLandmark, endLandmark, route1, routesData[j]);
      if entry.Some? {
        potentialConnections := potentialConnections + [entry.value];
      }
    }
    assert routesData[..|routesData|] == routesData;
  }

  lemma DirectRoutesStep(startLandmark: string, endLandmark: string, routes: seq<Route>, r: nat)
    requires r < |routes|
    ensures DirectRoutes(startLandmark, endLandmark, routes[..r + 1])
      == DirectRoutes(startLandmark, endLandmark, routes[..r])
         + match DirectEntry(startLandmark, endLandmark, routes[r])
           case None => []
           case Some(d) => [d]
  {
    assert routes[..r + 1][..r] == routes[..r];
  }

  /** The first loop of `find_route_logic`: the direct routes, in route order. */
  method DirectRoutesOf(startLandmark: string, endLandmark: string, routesData: seq<Route>) returns (directRoutes: seq<DirectRoute>)
    ensures directRoutes == DirectRoutes(startLandmark, endLandmark, routesData)
  {
    directRoutes := [];
    for r := 0 to |routesData|
      invariant directRoutes == DirectRoutes(startLandmark, endLandmark, routesData[..r])
    {
      DirectRoutesStep(startLandmark, endLandmark, routesData, r);
      var entry := MatchRoute(startLandmark, endLandmark, routesData[r]);
      if entry.Some? {
        directRoutes := directRoutes + [entry.value];
      }
    }
    assert routesData[..|routesData|] == routesData;
  }

  /** `find_route_logic`: the structured answer behind the reply text. */
  method FindRouteLogic(startLandmark: string, endLandmark: string, routesData: seq<Route>) returns (answer: RouteAnswer)
    ensures answer == FindRoute(startLandmark, endLandmark, routesData)
  {
    var directRoutes := DirectRoutesOf(startLandmark, endLandmark, routesData);
    if directRoutes != [] {
      return DirectRoutesFound(directRoutes);
    }
    var potentialConnections: seq<Transfer> := [];
    for i := 0 to |routesData|
      invariant potentialConnections == Transfers(startLandmark, endLandmark, routesData[..i], routesData)
    {
      TransfersStep(startLandmark, endLandmark, routesData, routesData, i);
      potentialConnections := TransfersFromOf(potentialConnections, startLandmark, endLandmark, routesData[i], routesData);
    }
    assert routesData[..|routesData|] == routesData;
    if potentialConnections != [] {
      return TransfersFound(potentialConnections);
    }
    return NoRouteFound;
  }
}
