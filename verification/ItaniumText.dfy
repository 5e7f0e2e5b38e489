/**
 Matching text the way utils/extract_symbols.py does with regular expressions,
 where a dot stands for anything but a newline and repetitions give back what they
 have taken as long as the rest of the pattern does not match.
 */
module ItaniumText {

  datatype Option<T> = None | Some(value: T)

  predicate IsDigit(c: char) { '0' <= c <= '9' }

  /** [A-Z0-9], of substitutions. */
  predicate IsSeqId(c: char) { 'A' <= c <= 'Z' || IsDigit(c) }

  /** [rVKRO], of qualifiers. */
  predicate IsQualifier(c: char) { c == 'r' || c == 'V' || c == 'K' || c == 'R' || c == 'O' }

  predicate NotE(c: char) { c != 'E' }

  /** The length of the longest prefix of s that consists of such characters. */
  function RunLength(s: string, ok: char -> bool): (n: nat)
    ensures n <= |s|
    ensures forall k :: 0 <= k < n ==> ok(s[k])
    ensures n < |s| ==> !ok(s[n])
  {
    if s == "" || !ok(s[0]) then 0 else 1 + RunLength(s[1..], ok)
  }

  predicate NotNewline(c: char) { c != '\n' }

  /** What a greedy dot takes. */
  function Line(s: string): (r: string)
    ensures r == s[..RunLength(s, NotNewline)] && r <= s
  {
    s[..RunLength(s, NotNewline)]
  }

  /** Whether a dot matches at position j. */
  predicate DotAt(s: string, j: int) { 0 <= j < |s| && s[j] != '\n' }

  /** The last position from lo to hi at which a dot matches: where a repetition that could take hi characters stops. */
  function LastDot(s: string, lo: nat, hi: nat): (j: Option<nat>)
    requires lo <= hi
    ensures j.Some? ==> lo <= j.value <= hi && DotAt(s, j.value) && forall k :: j.value < k <= hi ==> !DotAt(s, k)
    ensures j.None? ==> forall k :: lo <= k <= hi ==> !DotAt(s, k)
    decreases hi - lo
  {
    if DotAt(s, hi) then Some(hi) else if hi == lo then None else LastDot(s, lo, hi - 1)
  }

  /** A match of a repetition of such characters, at least lo of them, followed by at least one character up to a newline. */
  function MatchRun(s: string, ok: char -> bool, lo: nat): (m: Option<(string, string)>)
    ensures m.Some? ==> |m.value.0| >= lo && 0 < |m.value.1| && |m.value.0| + |m.value.1| <= |s| && m.value.0 + m.value.1 <= s
  {
    var hi := RunLength(s, ok);
    if hi < lo then None
    else
      match LastDot(s, lo, hi)
      case None => None
      case Some(j) =>
        LineFits(s, j);
        Some((s[..j], Line(s[j..])))
  }

  /** A way for the pattern to match: j characters of the run, and something behind them on the same line. */
  ghost predicate Splits(s: string, ok: char -> bool, lo: nat, j: int) {
    lo <= j && DotAt(s, j) && forall k :: 0 <= k < j ==> ok(s[k])
  }

  /** A greedy match takes the longest run that leaves something, and fails only if there is none. */
  lemma MatchRunIsGreedy(s: string, ok: char -> bool, lo: nat)
    ensures match MatchRun(s, ok, lo)
            case None => forall j :: !Splits(s, ok, lo, j)
            case Some((run, more)) =>
              Splits(s, ok, lo, |run|) && run == s[..|run|] && more == Line(s[|run|..]) && forall j :: Splits(s, ok, lo, j) ==> j <= |run|
  {
    forall j | Splits(s, ok, lo, j)
      ensures j <= RunLength(s, ok)
    {
      RunAtLeast(s, ok, j);
    }
  }

  lemma {:induction false} RunAtLeast(s: string, ok: char -> bool, j: nat)
    requires j <= |s| && forall k :: 0 <= k < j ==> ok(s[k])
    ensures j <= RunLength(s, ok)
  {
    if j > 0 {
      RunAtLeast(s[1..], ok, j - 1);
    }
  }

  lemma LineFits(s: string, j: nat)
    requires DotAt(s, j)
    ensures Line(s[j..]) != "" && s[..j] + Line(s[j..]) <= s
  {
  }

  function IntOf(digits: string): nat {
    if digits == "" then 0 else 10 * IntOf(digits[..|digits| - 1]) + (digits[|digits| - 1] as int - '0' as int) % 10
  }

  function Drop(s: string, n: nat): string { if n < |s| then s[n..] else "" }

  function Take(s: string, n: nat): string { if n < |s| then s[..n] else s }

  // ---------- Decimal numbers ----------

  function Digit(n: nat): char
    requires n < 10
  {
    ['0', '1', '2', '3', '4', '5', '6', '7', '8', '9'][n]
  }

  function Decimal(n: nat): (s: string)
    ensures s != "" && forall k :: 0 <= k < |s| ==> IsDigit(s[k])
  {
    if n < 10 then [Digit(n)] else Decimal(n / 10) + [Digit(n % 10)]
  }

  lemma {:induction false} IntOfDecimal(n: nat)
    ensures IntOf(Decimal(n)) == n
  {
    hide IntOf, Digit;
    IntOfNothing();
    if n < 10 {
      IntOfNext("", Digit(n));
      assert "" + [Digit(n)] == [Digit(n)];
    } else {
      IntOfDecimal(n / 10);
      IntOfNext(Decimal(n / 10), Digit(n % 10));
    }
    DigitIs(n % 10);
  }

  lemma IntOfNothing()
    ensures IntOf("") == 0
  {
  }

  lemma IntOfNext(s: string, c: char)
    ensures IntOf(s + [c]) == 10 * IntOf(s) + (c as int - '0' as int) % 10
  {
    assert (s + [c])[..|s|] == s;
  }

  lemma DigitIs(n: nat)
    requires n < 10
    ensures (Digit(n) as int - '0' as int) % 10 == n
  {
  }

  // ---------- Runs ----------

  lemma {:induction false} RunOver(a: string, b: string, ok: char -> bool)
    requires (forall k :: 0 <= k < |a| ==> ok(a[k])) && (b == "" || !ok(b[0]))
    ensures RunLength(a + b, ok) == |a|
  {
    if a == "" {
      assert a + b == b;
    } else {
      assert (a + b)[1..] == a[1..] + b;
      RunOver(a[1..], b, ok);
    }
  }

  predicate OneLine(s: string) { forall k :: 0 <= k < |s| ==> s[k] != '\n' }

  lemma {:induction false} WholeLine(s: string)
    requires OneLine(s)
    ensures Line(s) == s
  {
    assert s + "" == s;
    RunOver(s, "", NotNewline);
  }

  lemma {:induction false} LineAfter(a: string, b: string)
    requires OneLine(a)
    ensures Line(a + b) == a + Line(b)
    decreases |a|
  {
    if a == "" {
      assert a + b == b;
    } else {
      assert (a + b)[1..] == a[1..] + b;
      LineAfter(a[1..], b);
    }
  }

  lemma LineIsOneLine(s: string)
    ensures OneLine(Line(s))
  {
  }

  /** A run that ends where the rest of the line begins. */
  lemma MatchRunIs(a: string, b: string, ok: char -> bool, lo: nat)
    requires (forall k :: 0 <= k < |a| ==> ok(a[k])) && |a| >= lo && b != "" && !ok(b[0]) && b[0] != '\n'
    ensures MatchRun(a + b, ok, lo) == Some((a, Line(b)))
  {
    RunOver(a, b, ok);
    assert (a + b)[|a|..] == b && (a + b)[..|a|] == a && (a + b)[|a|] == b[0];
    hide RunLength, Line;
  }
}
