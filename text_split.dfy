// Properties of Python's `str.split` with a non-empty separator, as
// modelled by `Text.SplitOn`.

module TextSplit {
  import opened Wrappers
  import opened Text

  /** One step of the split: the first piece, then the split of the rest. */
  lemma SplitOnUnfold(s: string, sep: string)
    requires |sep| > 0 && Find(s, sep).Some?
    ensures SplitOn(s, sep) == [s[..Find(s, sep).value]] + SplitOn(s[Find(s, sep).value + |sep|..], sep)
  {
  }

  /** Every piece of a split holds only characters of the text. */
  lemma {:induction false} SplitOnChars(s: string, sep: string)
    requires |sep| > 0
    ensures forall k, c :: 0 <= k < |SplitOn(s, sep)| && c in SplitOn(s, sep)[k] ==> c in s
    decreases |s|
  {
    if Find(s, sep).Some? {
      var i := Find(s, sep).value;
      var rest := s[i + |sep|..];
      SplitOnChars(rest, sep);
      SplitOnUnfold(s, sep);
      forall c | c in s[..i] ensures c in s {
      }
      forall c | c in rest ensures c in s {
      }
    }
  }

  /** The first two pieces of a split are the text before the first occurrence of the
      separator and the text between its first and second occurrences. */
  lemma SplitFirstTwo(s: string, sep: string)
    requires |sep| > 0 && Find(s, sep).Some?
    ensures var i := Find(s, sep).value;
            var rest := s[i + |sep|..];
            var parts := SplitOn(s, sep);
            && parts[0] == s[..i]
            && parts[1] == (if Find(rest, sep).Some? then rest[..Find(rest, sep).value] else rest)
  {
    SplitOnHead(s, sep);
    SplitOnHead(s[Find(s, sep).value + |sep|..], sep);
  }

  /** The first piece of a split is the text before the first occurrence, and
      the remaining pieces split the text after it. */
  lemma SplitOnHead(s: string, sep: string)
    requires |sep| > 0
    ensures SplitOn(s, sep)[0] == if Find(s, sep).Some? then s[..Find(s, sep).value] else s
    ensures Find(s, sep).Some? ==> SplitOn(s, sep)[1..] == SplitOn(s[Find(s, sep).value + |sep|..], sep)
  {
    if Find(s, sep).Some? {
      SplitOnUnfold(s, sep);
    }
  }

  /** Splitting on a separator that occurs gives at least two pieces. */
  lemma SplitOnTwo(s: string, sep: string)
    requires |sep| > 0 && Contains(s, sep)
    ensures |SplitOn(s, sep)| >= 2
  {
    FindSpec(s, sep);
    SplitOnHead(s, sep);
  }
}
