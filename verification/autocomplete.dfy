/** The strategy box of `components/StrategyAutocomplete.tsx`: which saved
    strategies are suggested for what has been typed (a substring match or
    an abbreviation match on the initials of the words), and how the
    keyboard moves the highlight through the suggestions. */
module StrategyAutocomplete {
  import opened Results
  import Seqs
  import Text

  // ---------------------------------------------------------------------------
  // abbreviationMatch
  // ---------------------------------------------------------------------------

  /** The characters the word-splitting pattern `[\s&_\-/]+` treats as gaps. */
  predicate IsSeparator(c: char)
  {
    Text.IsSpace(c) || c == '&' || c == '_' || c == '-' || c == '/'
  }

  /** The leading separators of `s` removed. */
  function DropSeparators(s: string): (r: string)
    ensures |r| <= |s| && r == s[|s| - |r|..]
    ensures r == "" || !IsSeparator(r[0])
  {
    if |s| > 0 && IsSeparator(s[0]) then DropSeparators(s[1..]) else s
  }

  /** The length of the run of non-separators `s` starts with. */
  function WordLength(s: string): (n: nat)
    ensures n <= |s|
    ensures forall i :: 0 <= i < n ==> !IsSeparator(s[i])
    ensures n == |s| || IsSeparator(s[n])
  {
    if |s| > 0 && !IsSeparator(s[0]) then 1 + WordLength(s[1..]) else 0
  }

  /** A non-empty run of non-separators. */
  predicate IsWord(w: string)
  {
    w != "" && forall i :: 0 <= i < |w| ==> !IsSeparator(w[i])
  }

  /** `strategy.split(/[\s&_\-/]+/).filter(Boolean)`: the maximal runs of
      non-separators, in order. */
  function Words(s: string): (ws: seq<string>)
    ensures forall k :: 0 <= k < |ws| ==> IsWord(ws[k])
    decreases |s|
  {
    var t := DropSeparators(s);
    if |t| == 0 then []
    else
      var n := WordLength(t);
      var w := t[..n];
      LeadingWord(t);
      var rest := Words(t[n..]);
      var ws := [w] + rest;
      assert ws[0] == w;
      assert forall k :: 0 < k < |ws| ==> ws[k] == rest[k - 1];
      ws
  }

  /** A string that does not start with a separator starts with a word. */
  lemma LeadingWord(t: string)
    requires t != "" && !IsSeparator(t[0])
    ensures IsWord(t[..WordLength(t)])
  {
    var w := t[..WordLength(t)];
    assert forall i :: 0 <= i < |w| ==> w[i] == t[i];
  }

  /** `w[0]?.toLowerCase() ?? ''`. */
  function FirstLetter(w: string): (r: string)
    ensures |r| <= 1
  {
    if w == "" then "" else [Text.LowerChar(w[0])]
  }

  /** The first letters of the words, lower-cased and joined. */
  function FirstLetters(ws: seq<string>): string
  {
    if |ws| == 0 then "" else FirstLetter(ws[0]) + FirstLetters(ws[1..])
  }

  /** `abbreviationMatch`: an empty query never matches; otherwise the
      lower-cased query must occur in the initials. */
  function AbbreviationMatch(query: string, strategy: string): (r: bool)
    ensures r <==> query != "" && Text.Contains(Initials(strategy, true), Text.Lower(query))
  {
    InitialsAreFirstLetters(strategy);
    query != "" && Text.Contains(FirstLetters(Words(strategy)), Text.Lower(query))
  }

  /** A single left-to-right scan for the initials: a character counts when
      it is not a separator and comes first or right after a separator
      (`afterGap` says the previous character was one, or there was none). */
  function Initials(s: string, afterGap: bool): (r: string)
    ensures |r| <= |s|
  {
    if s == "" then ""
    else if IsSeparator(s[0]) then Initials(s[1..], true)
    else (if afterGap then [Text.LowerChar(s[0])] else "") + Initials(s[1..], false)
  }

  /** Leading separators contribute nothing. */
  lemma {:induction false} InitialsDropSeparators(s: string)
    ensures Initials(s, true) == Initials(DropSeparators(s), true)
    decreases |s|
  {
    if |s| > 0 && IsSeparator(s[0]) {
      InitialsDropSeparators(s[1..]);
    }
  }

  /** Inside a word nothing counts until the next gap. */
  lemma {:induction false} InitialsSkipWord(s: string)
    ensures Initials(s, false) == Initials(s[WordLength(s)..], true)
    decreases |s|
  {
    if |s| > 0 && !IsSeparator(s[0]) {
      InitialsSkipWord(s[1..]);
      assert s[1..][WordLength(s[1..])..] == s[WordLength(s)..];
    }
  }

  /** The scan and the split-map-join agree. */
  lemma {:induction false} InitialsAreFirstLetters(s: string)
    ensures Initials(s, true) == FirstLetters(Words(s))
    decreases |s|
  {
    var t := DropSeparators(s);
    InitialsDropSeparators(s);
    if t != "" {
      var n := WordLength(t);
      InitialsSkipWord(t[1..]);
      assert t[1..][WordLength(t[1..])..] == t[n..];
      InitialsAreFirstLetters(t[n..]);
      var ws := Words(s);
      assert ws == [t[..n]] + Words(t[n..]);
      assert ws[1..] == Words(t[n..]);
      assert FirstLetter(ws[0]) == [Text.LowerChar(t[0])];
    }
  }

  /** A word followed by anything: only its first letter counts. */
  lemma {:induction false} InitialsOverWord(w: string, rest: string, afterGap: bool)
    requires IsWord(w)
    ensures Initials(w + rest, afterGap) == (if afterGap then [Text.LowerChar(w[0])] else "") + Initials(rest, false)
    decreases |w|
  {
    assert (w + rest)[1..] == w[1..] + rest;
    if |w| > 1 {
      InitialsOverWord(w[1..], rest, false);
    }
  }

  /** A run of separators: the scan restarts after it. */
  lemma {:induction false} InitialsOverSeparators(seps: string, rest: string, afterGap: bool)
    requires |seps| > 0 && forall i :: 0 <= i < |seps| ==> IsSeparator(seps[i])
    ensures Initials(seps + rest, afterGap) == Initials(rest, true)
    decreases |seps|
  {
    assert (seps + rest)[1..] == seps[1..] + rest;
    if |seps| > 1 {
      InitialsOverSeparators(seps[1..], rest, true);
    } else {
      assert seps[1..] + rest == rest;
    }
  }

  lemma ExampleInitials(first: string, gap: string, second: string)
    requires first == "Support" && gap == " & " && second == "Resistance"
    ensures Initials(first + gap + second, true) == "sr"
  {
    assert IsWord(first) && IsWord(second);
    InitialsOverWord(second, "", true);
    assert second + "" == second;
    InitialsOverSeparators(gap, second, false);
    InitialsOverWord(first, gap + second, true);
    assert first + gap + second == first + (gap + second);
  }

  /** "sr" abbreviates "Support & Resistance". */
  lemma AbbreviationExample()
    ensures AbbreviationMatch("sr", "Support & Resistance")
    ensures !AbbreviationMatch("", "Support & Resistance")
  {
    ExampleInitials("Support", " & ", "Resistance");
    assert "Support" + " & " + "Resistance" == "Support & Resistance";
    assert Text.Lower("sr") == "sr";
    Text.ContainsSelf("sr");
  }

  // ---------------------------------------------------------------------------
  // suggestions
  // ---------------------------------------------------------------------------

  /** The most suggestions shown for an empty box. */
  const MaxUnfiltered: nat := 8

  /** Whether strategy `s` is suggested for the query `q` (already
      lower-cased and trimmed). */
  predicate Suggests(q: string, s: string)
  {
    Text.Contains(Text.Lower(s), q) || AbbreviationMatch(q, s)
  }

  function SuggestsFn(q: string): string -> bool
  {
    (s: string) => Suggests(q, s)
  }

  /** `suggestions`: a blank box offers the first eight strategies; otherwise
      every strategy that contains the query or abbreviates to it, in the
      saved order. */
  function Suggestions(value: string, strategies: seq<string>): (r: seq<string>)
    ensures Seqs.IsSubseq(r, strategies)
    ensures Text.IsBlank(value) ==>
      && |r| == (if |strategies| < MaxUnfiltered then |strategies| else MaxUnfiltered)
      && forall i :: 0 <= i < |r| ==> r[i] == strategies[i]
    ensures !Text.IsBlank(value) ==>
      forall s :: s in r <==> s in strategies && Suggests(Text.Trim(Text.Lower(value)), s)
  {
    Text.TrimEmptyIffBlank(value);
    if Text.Trim(value) == "" then
      PrefixIsSubseq(strategies, MaxUnfiltered);
      Seqs.Take(strategies, MaxUnfiltered)
    else
      var q := Text.Trim(Text.Lower(value));
      Seqs.FilterIsSubseq(strategies, SuggestsFn(q));
      Seqs.Filter(strategies, SuggestsFn(q))
  }

  /** A prefix is a subsequence. */
  lemma {:induction false} PrefixIsSubseq(s: seq<string>, n: nat)
    ensures Seqs.IsSubseq(Seqs.Take(s, n), s)
    decreases |s|
  {
    var r := Seqs.Take(s, n);
    if |r| > 0 {
      PrefixIsSubseq(s[1..], n - 1);
      assert r[1..] == Seqs.Take(s[1..], n - 1);
    }
  }

  /** Typing a saved strategy's own name (in any letter case of the ASCII
      letters, with any surrounding space) suggests it. */
  lemma {:induction false} OwnNameIsSuggested(s: string, strategies: seq<string>)
    requires s in strategies && !Text.IsBlank(s)
    ensures s in Suggestions(s, strategies)
  {
    var lower := Text.Lower(s);
    var q := Text.Trim(lower);
    Text.ContainsIff(lower, q);
    assert Text.Contains(lower, q);
  }

  // ---------------------------------------------------------------------------
  // handleKeyDown
  // ---------------------------------------------------------------------------

  datatype Key = ArrowDown | ArrowUp | Enter | Escape | OtherKey

  /** Whether the list is open and which row is highlighted (-1 for none). */
  datatype Menu = Menu(open: bool, highlight: int)

  /** The menu after a key press, and the suggestion Enter picked, if any. */
  datatype KeyOutcome = KeyOutcome(menu: Menu, picked: Option<string>)

  /** `handleKeyDown` over the current suggestions. */
  function KeyDown(m: Menu, filtered: seq<string>, key: Key): (r: KeyOutcome)
    ensures r.picked.Some? <==>
      key == Enter && m.open && 0 <= m.highlight < |filtered|
    ensures r.picked.Some? ==> r.picked.value == filtered[m.highlight] && !r.menu.open
    ensures (!m.open || |filtered| == 0) && !(key == ArrowDown && |filtered| > 0) ==> r == KeyOutcome(m, None)
    ensures !m.open && key == ArrowDown && |filtered| > 0 ==> r == KeyOutcome(Menu(true, 0), None)
    ensures m.open && |filtered| > 0 && key == Escape ==> r == KeyOutcome(Menu(false, -1), None)
    ensures r.picked.Some? ==> r.menu == m.(open := false)
    ensures m.open && |filtered| > 0 && (key == OtherKey || (key == Enter && !(0 <= m.highlight < |filtered|))) ==>
              r == KeyOutcome(m, None)
  {
    var n := |filtered|;
    if !m.open || n == 0 then
      if key == ArrowDown && n > 0 then KeyOutcome(Menu(true, 0), None)
      else KeyOutcome(m, None)
    else
      match key
      case ArrowDown => KeyOutcome(m.(highlight := if m.highlight < n - 1 then m.highlight + 1 else 0), None)
      case ArrowUp => KeyOutcome(m.(highlight := if m.highlight > 0 then m.highlight - 1 else n - 1), None)
      case Enter =>
        if 0 <= m.highlight < n then KeyOutcome(m.(open := false), Some(filtered[m.highlight]))
        else KeyOutcome(m, None)
      case Escape => KeyOutcome(Menu(false, -1), None)
      case OtherKey => KeyOutcome(m, None)
  }

  /** A highlight from -1 ("none") up to the last row. */
  predicate InRange(m: Menu, n: nat)
  {
    -1 <= m.highlight < n
  }

  /** Every key keeps the highlight in range, and on an open, non-empty list
      the arrows always land on a row. */
  lemma KeyDownKeepsRange(m: Menu, filtered: seq<string>, key: Key)
    requires InRange(m, |filtered|)
    ensures InRange(KeyDown(m, filtered, key).menu, |filtered|)
    ensures (key == ArrowDown || key == ArrowUp) && m.open && |filtered| > 0 ==>
      0 <= KeyDown(m, filtered, key).menu.highlight < |filtered|
  {
  }

  /** On an open list the arrows cycle: down is the next row modulo the
      length (from "none" to the first), up the previous one (from "none"
      to the last). */
  lemma ArrowsCycle(m: Menu, filtered: seq<string>)
    requires m.open && |filtered| > 0 && InRange(m, |filtered|)
    ensures KeyDown(m, filtered, ArrowDown).menu.highlight == (m.highlight + 1) % |filtered|
    ensures m.highlight >= 0 ==>
      KeyDown(m, filtered, ArrowUp).menu.highlight == (m.highlight - 1 + |filtered|) % |filtered|
    ensures m.highlight == -1 ==> KeyDown(m, filtered, ArrowUp).menu.highlight == |filtered| - 1
  {
    var n := |filtered|;
    var h := m.highlight;
    assert KeyDown(m, filtered, ArrowDown).menu.highlight == if h < n - 1 then h + 1 else 0;
    assert KeyDown(m, filtered, ArrowUp).menu.highlight == if h > 0 then h - 1 else n - 1;
    ModCycle(h, n);
  }

  /** Wrapping a step of one on a cycle of length `n`. */
  lemma ModCycle(h: int, n: int)
    requires n > 0 && -1 <= h < n
    ensures (h + 1) % n == if h < n - 1 then h + 1 else 0
    ensures h >= 0 ==> (h - 1 + n) % n == if h > 0 then h - 1 else n - 1
  {
    if h < n - 1 {
      ModSmall(h + 1, n);
    } else {
      ModSelf(n);
    }
    if h > 0 {
      ModWrap(h - 1, n);
    } else if h == 0 {
      ModSmall(n - 1, n);
    }
  }

  lemma ModSmall(a: int, n: int)
    requires 0 <= a < n
    ensures a % n == a
  {
  }

  lemma ModSelf(n: int)
    requires n > 0
    ensures n % n == 0
  {
  }

  lemma ModWrap(a: int, n: int)
    requires 0 <= a < n
    ensures (a + n) % n == a
  {
  }

  /** Down then up returns to the highlighted row. */
  lemma UpUndoesDown(m: Menu, filtered: seq<string>)
    requires m.open && 0 <= m.highlight < |filtered|
    ensures KeyDown(KeyDown(m, filtered, ArrowDown).menu, filtered, ArrowUp).menu == m
  {
  }

  /** Escape on an open list closes it and clears the highlight. */
  lemma EscapeCloses(m: Menu, filtered: seq<string>)
    requires m.open && |filtered| > 0
    ensures KeyDown(m, filtered, Escape) == KeyOutcome(Menu(false, -1), None)
  {
  }
}
