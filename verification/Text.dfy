/** The string operations the hub relies on: searching for a separator,
    splitting on it, stripping blanks and folding ASCII case. */
module Text {

  /** The position of the first `c` in `s`, or |s| when there is none. */
  function IndexOf(s: string, c: char): (i: nat)
    ensures i <= |s|
  {
    if s == "" || s[0] == c then 0 else 1 + IndexOf(s[1..], c)
  }

  /** What precedes the first `c`: all of `s` when `c` does not occur. */
  function Before(s: string, c: char): string {
    s[..IndexOf(s, c)]
  }

  /** What follows the first `c`: nothing when `c` does not occur. */
  function After(s: string, c: char): string {
    var i := IndexOf(s, c);
    if i == |s| then "" else s[i + 1..]
  }

  lemma {:induction false} IndexOfIsFirst(s: string, c: char)
    ensures var i := IndexOf(s, c);
            c !in s[..i] && (i < |s| <==> c in s) && (i < |s| ==> s[i] == c)
  {
    if s != "" && s[0] != c {
      IndexOfIsFirst(s[1..], c);
      var i := IndexOf(s, c);
      assert s[..i] == [s[0]] + s[1..][..i - 1];
      assert s == [s[0]] + s[1..];
    }
  }

  /** All pieces of `s` between occurrences of `c`; never an empty list. */
  function Split(s: string, c: char): (pieces: seq<string>)
    ensures pieces != []
    decreases |s|
  {
    IndexOfIsFirst(s, c);
    if c in s then [Before(s, c)] + Split(After(s, c), c) else [s]
  }

  /** The characters Python takes for white space. */
  predicate IsBlank(c: char) {
    || c in {' ', '\U{85}', '\U{A0}', '\U{1680}', '\U{2028}', '\U{2029}', '\U{202F}', '\U{205F}', '\U{3000}'}
    || '\t' <= c <= '\r' || '\U{1C}' <= c <= '\U{1F}' || '\U{2000}' <= c <= '\U{200A}'
  }

  function StripLeft(s: string): string {
    if s != "" && IsBlank(s[0]) then StripLeft(s[1..]) else s
  }

  function StripRight(s: string): string {
    if s != "" && IsBlank(s[|s| - 1]) then StripRight(s[..|s| - 1]) else s
  }

  function Strip(s: string): string {
    StripRight(StripLeft(s))
  }

  function LowerChar(c: char): char {
    if 'A' <= c <= 'Z' then 'a' + (c - 'A') else c
  }

  function Lower(s: string): string {
    if s == "" then "" else [LowerChar(s[0])] + Lower(s[1..])
  }

  predicate IsDigits(s: string) {
    s != "" && forall i | 0 <= i < |s| :: '0' <= s[i] <= '9'
  }

  lemma {:induction false} IndexOfFirst(a: string, c: char, b: string)
    requires c !in a
    ensures IndexOf(a + [c] + b, c) == |a|
  {
    if a != "" {
      assert (a + [c] + b)[1..] == a[1..] + [c] + b;
      IndexOfFirst(a[1..], c, b);
    }
  }

  lemma SplitFirst(head: string, c: char, rest: string)
    requires c !in head
    ensures Split(head + [c] + rest, c) == [head] + Split(rest, c)
  {
    var whole := head + [c] + rest;
    IndexOfFirst(head, c, rest);
    assert whole[|head|] == c;
    assert Before(whole, c) == head && After(whole, c) == rest;
  }

  lemma BeforeAfter(s: string, c: char)
    requires c in s
    ensures s == Before(s, c) + [c] + After(s, c) && c !in Before(s, c) && |After(s, c)| < |s|
  {
    IndexOfIsFirst(s, c);
  }

  lemma Regroup(head: string, c: char, rest: string, s: string)
    ensures head + [c] + rest + [c] + s == head + [c] + (rest + [c] + s)
  {
  }

  /** Splitting is compositional over the separator. */
  lemma {:induction false} SplitJoin(p: string, c: char, s: string)
    ensures Split(p + [c] + s, c) == Split(p, c) + Split(s, c)
    decreases |p|
  {
    hide Split, Before, After;
    if c in p {
      var head, rest := Before(p, c), After(p, c);
      BeforeAfter(p, c);
      SplitJoin(rest, c, s);
      Regroup(head, c, rest, s);
      SplitFirst(head, c, rest + [c] + s);
      SplitFirst(head, c, rest);
    } else {
      SplitFirst(p, c, s);
      SplitNone(p, c);
    }
  }

  lemma SplitNone(p: string, c: char)
    requires c !in p
    ensures Split(p, c) == [p]
  {
  }

  // -- stripping and folding ------------------------------------------------

  predicate AllBlank(s: string) {
    forall i | 0 <= i < |s| :: IsBlank(s[i])
  }

  /** Nothing blank at either end. */
  predicate Trimmed(s: string) {
    s != "" ==> !IsBlank(s[0]) && !IsBlank(s[|s| - 1])
  }

  lemma {:induction false} StripLeftDrops(blanks: string, s: string)
    requires AllBlank(blanks) && (s != "" ==> !IsBlank(s[0]))
    ensures StripLeft(blanks + s) == s
    decreases |blanks|
  {
    hide IsBlank;
    if blanks == "" {
      assert blanks + s == s;
    } else {
      assert (blanks + s)[1..] == blanks[1..] + s;
      StripLeftDrops(blanks[1..], s);
    }
  }

  lemma {:induction false} StripRightDrops(s: string, blanks: string)
    requires AllBlank(blanks) && (s != "" ==> !IsBlank(s[|s| - 1]))
    ensures StripRight(s + blanks) == s
    decreases |blanks|
  {
    hide IsBlank;
    if blanks == "" {
      assert s + blanks == s;
    } else {
      var init := blanks[..|blanks| - 1];
      assert (s + blanks)[..|s + blanks| - 1] == s + init;
      StripRightDrops(s, init);
    }
  }

  lemma {:induction false} StripLeftBlanks(blanks: string)
    requires AllBlank(blanks)
    ensures StripLeft(blanks) == ""
    decreases |blanks|
  {
    hide IsBlank;
    if blanks != "" {
      StripLeftBlanks(blanks[1..]);
    }
  }

  /** Stripping takes off exactly the blanks at both ends. */
  lemma StripPadded(left: string, s: string, right: string)
    requires AllBlank(left) && AllBlank(right) && Trimmed(s)
    ensures Strip(left + s + right) == s
  {
    if s == "" {
      assert left + s + right == left + right;
      assert AllBlank(left + right);
      StripLeftBlanks(left + right);
    } else {
      assert left + s + right == left + (s + right);
      assert (s + right)[0] == s[0];
      StripLeftDrops(left, s + right);
      StripRightDrops(s, right);
    }
    hide IsBlank;
  }

  lemma {:induction false} LowerFolds(s: string)
    ensures |Lower(s)| == |s|
    ensures forall i | 0 <= i < |s| :: Lower(s)[i] == if 'A' <= s[i] <= 'Z' then s[i] - 'A' + 'a' else s[i]
  {
    if s != "" {
      LowerFolds(s[1..]);
    }
  }

  /** No piece holds the separator. */
  lemma {:induction false} PiecesWithout(s: string, c: char)
    ensures forall i | 0 <= i < |Split(s, c)| :: c !in Split(s, c)[i]
    decreases |s|
  {
    if c in s {
      BeforeAfter(s, c);
      PiecesWithout(After(s, c), c);
    }
  }

  /** Among ASCII characters the blanks are the space and nine control characters. */
  lemma AsciiBlanks(c: char)
    requires c as int < 128
    ensures IsBlank(c) <==> c as int in {9, 10, 11, 12, 13, 28, 29, 30, 31, 32}
  {
  }

  lemma DigitsAre(s: string)
    ensures IsDigits(s) <==> s != "" && forall c | c in s :: c in {'0', '1', '2', '3', '4', '5', '6', '7', '8', '9'}
  {
    if IsDigits(s) {
      forall c | c in s ensures c in {'0', '1', '2', '3', '4', '5', '6', '7', '8', '9'} {
        var i :| 0 <= i < |s| && s[i] == c;
      }
    } else if s != "" {
      var i :| 0 <= i < |s| && !('0' <= s[i] <= '9');
      assert s[i] in s;
    }
  }
}
