/**
 * The regular expressions of the free-text parser, run by a small
 * backtracking matcher that tries alternatives in the order Python's `re`
 * does: `(?:a|b)` left to right, `\s+` and `(.+)` longest first, `(.+?)`
 * shortest first, `(?:\s|$)` whitespace before end. `.` matches anything
 * but a newline, and `$` matches at the end or before a final newline.
 */
module Patterns {
  import opened Wrappers
  import opened Text

  /** One element of a pattern. */
  datatype Node =
    | Lit(alts: seq<string>)  // `(?:a|b|…)`, alternatives in order
    | Spaces                  // `\s+`
    | LazyGroup               // `(.+?)`, a capturing group
    | GreedyGroup             // `(.+)`, a capturing group
    | SpaceOrEnd              // `(?:\s|$)`

  /** A captured group: `t[start..end]`. */
  datatype Span = Span(start: nat, end: nat)

  /** The number of capturing groups in `p`. */
  function Groups(p: seq<Node>): nat {
    if p == [] then 0
    else (if p[0].LazyGroup? || p[0].GreedyGroup? then 1 else 0) + Groups(p[1..])
  }

  /** How many characters `.` can take from `pos` on. */
  function DotRun(t: string, pos: nat): (n: nat)
    requires pos <= |t|
    ensures pos + n <= |t|
    ensures forall k :: pos <= k < pos + n ==> t[k] != '\n'
    ensures pos + n == |t| || t[pos + n] == '\n'
    decreases |t| - pos
  {
    if pos == |t| || t[pos] == '\n' then 0 else 1 + DotRun(t, pos + 1)
  }

  /** How many whitespace characters start at `pos`. */
  function SpaceRun(t: string, pos: nat): (n: nat)
    requires pos <= |t|
    ensures pos + n <= |t|
    ensures forall k :: pos <= k < pos + n ==> IsSpace(t[k])
    decreases |t| - pos
  {
    if pos == |t| || !IsSpace(t[pos]) then 0 else 1 + SpaceRun(t, pos + 1)
  }

  /** `$` without MULTILINE: the end, or just before a final newline. */
  predicate AtEnd(t: string, pos: nat) {
    pos == |t| || (pos + 1 == |t| && t[pos] == '\n')
  }

  /** Every span is a non-empty piece of `t`. */
  predicate ValidCaps(caps: seq<Span>, t: string) {
    forall k :: 0 <= k < |caps| ==> caps[k].start < caps[k].end <= |t|
  }

  /** What a successful match of `p` from `caps` produces. */
  predicate Extends(r: Option<seq<Span>>, caps: seq<Span>, p: seq<Node>, t: string) {
    r.Some? ==> caps <= r.value && |r.value| == |caps| + Groups(p) && ValidCaps(r.value, t)
  }

  /** Matches `p` against `t` from `pos`, with groups captured so far `caps`;
      the first success in backtracking order, with all groups. */
  function Match(p: seq<Node>, t: string, pos: nat, caps: seq<Span>): (r: Option<seq<Span>>)
    requires pos <= |t| && ValidCaps(caps, t)
    ensures Extends(r, caps, p, t)
    decreases |p|, 1, 0
  {
    if p == [] then Some(caps)
    else
      match p[0]
      case Lit(alts) => TryAlts(p, t, pos, caps, 0)
      case Spaces =>
        var m := SpaceRun(t, pos);
        if m == 0 then None else TrySpaces(p, t, pos, caps, m)
      case LazyGroup => TryLazy(p, t, pos, caps, 1)
      case GreedyGroup => TryGreedy(p, t, pos, caps, DotRun(t, pos))
      case SpaceOrEnd =>
        var viaSpace := if pos < |t| && IsSpace(t[pos]) then Match(p[1..], t, pos + 1, caps) else None;
        if viaSpace.Some? then viaSpace
        else if AtEnd(t, pos) then Match(p[1..], t, pos, caps)
        else None
  }

  /** The alternatives of a literal node from the `k`-th on. */
  function TryAlts(p: seq<Node>, t: string, pos: nat, caps: seq<Span>, k: nat): (r: Option<seq<Span>>)
    requires p != [] && p[0].Lit?
    requires pos <= |t| && ValidCaps(caps, t)
    ensures Extends(r, caps, p, t)
    decreases |p|, 0, |p[0].alts| - k
  {
    if k >= |p[0].alts| then None
    else
      var a := p[0].alts[k];
      var here := if a <= t[pos..] then Match(p[1..], t, pos + |a|, caps) else None;
      if here.Some? then here else TryAlts(p, t, pos, caps, k + 1)
  }

  /** `\s+` taking `n` characters, then fewer. */
  function TrySpaces(p: seq<Node>, t: string, pos: nat, caps: seq<Span>, n: nat): (r: Option<seq<Span>>)
    requires p != [] && p[0].Spaces?
    requires pos + n <= |t| && ValidCaps(caps, t)
    ensures Extends(r, caps, p, t)
    decreases |p|, 0, n
  {
    if n == 0 then None
    else
      var here := Match(p[1..], t, pos + n, caps);
      if here.Some? then here else TrySpaces(p, t, pos, caps, n - 1)
  }

  /** `(.+?)` taking `n` characters, then more. */
  function TryLazy(p: seq<Node>, t: string, pos: nat, caps: seq<Span>, n: nat): (r: Option<seq<Span>>)
    requires p != [] && p[0].LazyGroup?
    requires pos <= |t| && ValidCaps(caps, t) && n >= 1
    ensures Extends(r, caps, p, t)
    decreases |p|, 0, |t| - n
  {
    if n > DotRun(t, pos) then None
    else
      var here := Match(p[1..], t, pos + n, caps + [Span(pos, pos + n)]);
      if here.Some? then here else TryLazy(p, t, pos, caps, n + 1)
  }

  /** `(.+)` taking `n` characters, then fewer. */
  function TryGreedy(p: seq<Node>, t: string, pos: nat, caps: seq<Span>, n: nat): (r: Option<seq<Span>>)
    requires p != [] && p[0].GreedyGroup?
    requires pos + n <= |t| && ValidCaps(caps, t)
    ensures Extends(r, caps, p, t)
    decreases |p|, 0, n
  {
    if n == 0 then None
    else
      var here := Match(p[1..], t, pos + n, caps + [Span(pos, pos + n)]);
      if here.Some? then here else TryGreedy(p, t, pos, caps, n - 1)
  }

  /** `re.search`: the first start position, from `pos` on, where `p` matches. */
  function SearchFrom(p: seq<Node>, t: string, pos: nat): (r: Option<seq<Span>>)
    requires pos <= |t|
    ensures r.Some? ==> |r.value| == Groups(p) && ValidCaps(r.value, t)
    decreases |t| - pos
  {
    var here := Match(p, t, pos, []);
    if here.Some? then here
    else if pos == |t| then None
    else SearchFrom(p, t, pos + 1)
  }

  function Search(p: seq<Node>, t: string): (r: Option<seq<Span>>)
    ensures r.Some? ==> |r.value| == Groups(p) && ValidCaps(r.value, t)
  {
    SearchFrom(p, t, 0)
  }

  /** The text of a captured group. */
  function GroupText(t: string, s: Span): string
    requires s.start <= s.end <= |t|
  {
    t[s.start..s.end]
  }

  // ---------------------------------------------------------------------
  // The patterns of the parser
  // ---------------------------------------------------------------------

  /** `(?:من|من عند)\s+(.+?)\s+(?:إلى|الى|لـ|ل|حتى)\s+(.+?)(?:\s|$)` */
  const FromTo: seq<Node> := [Lit(["من", "من عند"]), Spaces, LazyGroup, Spaces,
                              Lit(["إلى", "الى", "لـ", "ل", "حتى"]), Spaces, LazyGroup, SpaceOrEnd]

  /** `(?:إزاي|ازاي|كيف)\s+(?:أروح|اروح|أوصل|اوصل)\s+(.+?)(?:\s|$)` */
  const HowToGo: seq<Node> := [Lit(["إزاي", "ازاي", "كيف"]), Spaces,
                               Lit(["أروح", "اروح", "أوصل", "اوصل"]), Spaces, LazyGroup, SpaceOrEnd]

  /** `من\s+(.+?)\s+(?:لـ|ل|إلى|الى)\s+(.+)` */
  const ResidentialFrom: seq<Node> := [Lit(["من"]), Spaces, LazyGroup, Spaces,
                                       Lit(["لـ", "ل", "إلى", "الى"]), Spaces, GreedyGroup]

  /** `(.+?)\s+(?:للـ|للـ|لـ|ل)\s+(.+)` */
  const ResidentialTo: seq<Node> := [LazyGroup, Spaces, Lit(["للـ", "للـ", "لـ", "ل"]), Spaces, GreedyGroup]

  /** `(.+?)\s+إلى\s+(.+)` */
  const ResidentialIla: seq<Node> := [LazyGroup, Spaces, Lit(["إلى"]), Spaces, GreedyGroup]

  /** The residential patterns in the order they are tried. */
  const ResidentialPatterns: seq<seq<Node>> := [ResidentialFrom, ResidentialTo, ResidentialIla]

  /** The group count, one node at a time. */
  lemma GroupsStep(p: seq<Node>, i: nat)
    requires i < |p|
    ensures Groups(p[i..]) == (if p[i].LazyGroup? || p[i].GreedyGroup? then 1 else 0) + Groups(p[i + 1..])
  {
    assert p[i..][1..] == p[i + 1..];
  }

  lemma FromToGroups()
    ensures Groups(FromTo) == 2
  {
    assert FromTo[8..] == [];
    GroupsStep(FromTo, 7);
    GroupsStep(FromTo, 6);
    GroupsStep(FromTo, 5);
    GroupsStep(FromTo, 4);
    GroupsStep(FromTo, 3);
    GroupsStep(FromTo, 2);
    GroupsStep(FromTo, 1);
    GroupsStep(FromTo, 0);
    assert FromTo[0..] == FromTo;
  }

  lemma HowToGoGroups()
    ensures Groups(HowToGo) == 1
  {
    assert HowToGo[6..] == [];
    GroupsStep(HowToGo, 5);
    GroupsStep(HowToGo, 4);
    GroupsStep(HowToGo, 3);
    GroupsStep(HowToGo, 2);
    GroupsStep(HowToGo, 1);
    GroupsStep(HowToGo, 0);
    assert HowToGo[0..] == HowToGo;
  }

  lemma ResidentialFromGroups()
    ensures Groups(ResidentialFrom) == 2
  {
    assert ResidentialFrom[7..] == [];
    GroupsStep(ResidentialFrom, 6);
    GroupsStep(ResidentialFrom, 5);
    GroupsStep(ResidentialFrom, 4);
    GroupsStep(ResidentialFrom, 3);
    GroupsStep(ResidentialFrom, 2);
    GroupsStep(ResidentialFrom, 1);
    GroupsStep(ResidentialFrom, 0);
    assert ResidentialFrom[0..] == ResidentialFrom;
  }

  lemma ResidentialToGroups()
    ensures Groups(ResidentialTo) == 2
  {
    assert ResidentialTo[5..] == [];
    GroupsStep(ResidentialTo, 4);
    GroupsStep(ResidentialTo, 3);
    GroupsStep(ResidentialTo, 2);
    GroupsStep(ResidentialTo, 1);
    GroupsStep(ResidentialTo, 0);
    assert ResidentialTo[0..] == ResidentialTo;
  }

  lemma ResidentialIlaGroups()
    ensures Groups(ResidentialIla) == 2
  {
    assert ResidentialIla[5..] == [];
    GroupsStep(ResidentialIla, 4);
    GroupsStep(ResidentialIla, 3);
    GroupsStep(ResidentialIla, 2);
    GroupsStep(ResidentialIla, 1);
    GroupsStep(ResidentialIla, 0);
    assert ResidentialIla[0..] == ResidentialIla;
  }

  lemma ResidentialGroups()
    ensures forall k :: 0 <= k < |ResidentialPatterns| ==> Groups(ResidentialPatterns[k]) == 2
  {
    ResidentialFromGroups();
    ResidentialToGroups();
    ResidentialIlaGroups();
  }

  // ---------------------------------------------------------------------
  // A closing `(.+?)(?:\s|$)` stops at the first whitespace
  // ---------------------------------------------------------------------

  /** How many non-whitespace characters start at `pos`. */
  function WordRun(t: string, pos: nat): (n: nat)
    requires pos <= |t|
    ensures pos + n <= |t|
    ensures forall k :: pos <= k < pos + n ==> !IsSpace(t[k])
    ensures pos + n == |t| || IsSpace(t[pos + n])
    decreases |t| - pos
  {
    if pos == |t| || IsSpace(t[pos]) then 0 else 1 + WordRun(t, pos + 1)
  }

  lemma SpaceOrEndAt(t: string, pos: nat, caps: seq<Span>)
    requires pos <= |t| && ValidCaps(caps, t)
    ensures Match([SpaceOrEnd], t, pos, caps).Some? <==> (pos == |t| || IsSpace(t[pos]))
  {
    assert [SpaceOrEnd][1..] == [];
    if pos < |t| && t[pos] == '\n' {
      assert IsSpace(t[pos]);
    }
  }

  lemma {:induction false} TryLazyTail(t: string, pos: nat, caps: seq<Span>, n: nat)
    requires pos < |t| && t[pos] != '\n' && ValidCaps(caps, t) && 1 <= n <= 1 + WordRun(t, pos + 1)
    ensures TryLazy([LazyGroup, SpaceOrEnd], t, pos, caps, n)
            == Some(caps + [Span(pos, pos + 1 + WordRun(t, pos + 1))])
    decreases |t| - n
  {
    var p := [LazyGroup, SpaceOrEnd];
    var w := WordRun(t, pos + 1);
    assert p[1..] == [SpaceOrEnd];
    DotRunCovers(t, pos, n);
    var c := caps + [Span(pos, pos + n)];
    SpaceOrEndAt(t, pos + n, c);
    if n < 1 + w {
      assert !IsSpace(t[pos + n]);
      TryLazyTail(t, pos, caps, n + 1);
    } else {
      assert [SpaceOrEnd][1..] == [];
      if pos + n < |t| {
        assert IsSpace(t[pos + n]);
      }
    }
  }

  lemma {:induction false} DotRunCovers(t: string, pos: nat, n: nat)
    requires pos < |t| && t[pos] != '\n' && n <= 1 + WordRun(t, pos + 1)
    ensures n <= DotRun(t, pos)
    decreases |t| - pos
  {
    if n > 1 {
      assert !IsSpace(t[pos + 1]);
      assert t[pos + 1] != '\n';
      DotRunCovers(t, pos + 1, n - 1);
    }
  }

  /** A closing `(.+?)(?:\s|$)` captures its first character and then runs up
      to the next whitespace or the end of the text. */
  lemma LazyTailStopsAtSpace(t: string, pos: nat, caps: seq<Span>)
    requires pos < |t| && t[pos] != '\n' && ValidCaps(caps, t)
    ensures Match([LazyGroup, SpaceOrEnd], t, pos, caps) == Some(caps + [Span(pos, pos + 1 + WordRun(t, pos + 1))])
  {
    TryLazyTail(t, pos, caps, 1);
  }

  // ---------------------------------------------------------------------
  // `re.sub(r'\b(السكنية|السكنيه|منطقة|منطقه)\b', '', q)`
  // ---------------------------------------------------------------------

  /** The filler words removed from a residential query. */
  const Fillers: seq<string> := ["السكنية", "السكنيه", "منطقة", "منطقه"]

  /** A character `\w` accepts (a character `isalnum()` accepts, or `_`), on
      ASCII, Latin-1 and the Arabic block U+0600-06FF: ASCII letters and digits,
      `_`, the Latin-1 letters and the numerics ² ³ ¹ ¼ ½ ¾, and the Arabic
      letters (tatweel included) and Arabic-Indic digits; not the Arabic
      combining marks nor the signs U+06FD-06FE. */
  predicate IsWordChar(c: char) {
    || ('a' <= c <= 'z') || ('A' <= c <= 'Z') || ('0' <= c <= '9') || c == '_'
    || c == 'ª' || c == 'µ' || c == 'º'
    || c == '²' || c == '³' || c == '¹' || ('¼' <= c <= '¾')
    || ('À' <= c <= 'ÿ' && c != '×' && c != '÷')
    || ('ؠ' <= c <= 'ي') || ('٠' <= c <= '٩')
    || ('ٮ' <= c <= 'ٯ') || ('ٱ' <= c <= 'ۓ') || c == 'ە'
    || ('\U{06E5}' <= c <= '\U{06E6}') || ('\U{06EE}' <= c <= '\U{06EF}')
    || ('۰' <= c <= '\U{06FC}') || c == '\U{06FF}'
  }

  /** `\b` at position `i`: a word character on exactly one side. */
  predicate Boundary(t: string, i: nat)
    requires i <= |t|
  {
    (i > 0 && IsWordChar(t[i - 1])) != (i < |t| && IsWordChar(t[i]))
  }

  /** The first filler, from the `k`-th on, that matches at `pos` between two
      boundaries. */
  function FillerAt(t: string, pos: nat, k: nat): (r: Option<nat>)
    requires pos <= |t|
    ensures r.Some? ==> 0 < r.value && pos + r.value <= |t|
    decreases |Fillers| - k
  {
    if k >= |Fillers| then None
    else
      var w := Fillers[k];
      if Boundary(t, pos) && w <= t[pos..] && Boundary(t, pos + |w|) then Some(|w|)
      else FillerAt(t, pos, k + 1)
  }

  /** The substitution scanning from `pos`: each match is dropped and the scan
      resumes after it; other characters are kept. */
  function RemoveFillersFrom(t: string, pos: nat): (r: string)
    requires pos <= |t|
    ensures |r| <= |t| - pos
    ensures forall c :: c in r ==> c in t[pos..]
    decreases |t| - pos
  {
    if pos == |t| then []
    else
      match FillerAt(t, pos, 0)
      case Some(n) =>
        var rest := RemoveFillersFrom(t, pos + n);
        assert forall c :: c in t[pos + n..] ==> c in t[pos..] by {
          assert t[pos + n..] == t[pos..][n..];
        }
        rest
      case None =>
        var rest := RemoveFillersFrom(t, pos + 1);
        assert t[pos..] == [t[pos]] + t[pos + 1..];
        [t[pos]] + rest
  }

  function RemoveFillers(t: string): (r: string)
    ensures |r| <= |t|
    ensures forall c :: c in r ==> c in t
  {
    assert t[0..] == t;
    RemoveFillersFrom(t, 0)
  }

  /** A filler glued to a following letter (U+06EE) is not a whole word, so
      the text stays as it is. */
  lemma GluedFillerStays()
    ensures RemoveFillers("منطقة\U{06EE}") == "منطقة\U{06EE}"
  {
    var t := "منطقة\U{06EE}";
    assert !Boundary(t, 5);
    assert FillerAt(t, 0, 0) == None;
  }

  /** A filler followed by a sign (U+06FE) is a whole word and goes. */
  lemma FillerBeforeSignGoes()
    ensures RemoveFillers("منطقة\U{06FE}") == "\U{06FE}"
  {
    var t := "منطقة\U{06FE}";
    assert Fillers[2] <= t[0..] && Boundary(t, 5);
    assert FillerAt(t, 0, 0) == Some(5);
  }

  /** Text without any filler word comes through the substitution unchanged. */
  lemma {:induction false} RemoveFillersFromNoFiller(t: string, pos: nat)
    requires pos <= |t|
    requires forall i, k :: pos <= i < |t| && 0 <= k < |Fillers| ==> !(Fillers[k] <= t[i..])
    ensures RemoveFillersFrom(t, pos) == t[pos..]
    decreases |t| - pos
  {
    if pos < |t| {
      NoFillerAt(t, pos, 0);
      RemoveFillersFromNoFiller(t, pos + 1);
      assert t[pos..] == [t[pos]] + t[pos + 1..];
    }
  }

  lemma {:induction false} NoFillerAt(t: string, pos: nat, k: nat)
    requires pos <= |t|
    requires forall j :: 0 <= j < |Fillers| ==> !(Fillers[j] <= t[pos..])
    ensures FillerAt(t, pos, k) == None
    decreases |Fillers| - k
  {
    if k < |Fillers| {
      NoFillerAt(t, pos, k + 1);
    }
  }
}
