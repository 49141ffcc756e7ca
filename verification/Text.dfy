/**
 The string operations of Python the backend relies on, over sequences of code points.
 */
module Text {

  /** What `str.strip()` removes: every character for which `str.isspace()` holds. */
  predicate IsSpace(c: char) {
    || '\t' <= c <= '\r'
    || '\U{1c}' <= c <= ' '
    || c == '\U{85}' || c == '\U{a0}' || c == '\U{1680}'
    || '\U{2000}' <= c <= '\U{200a}'
    || c == '\U{2028}' || c == '\U{2029}' || c == '\U{202f}' || c == '\U{205f}' || c == '\U{3000}'
  }

  /** `s.lstrip()` */
  function LStrip(s: string): string {
    if s != [] && IsSpace(s[0]) then LStrip(s[1..]) else s
  }

  /** `s.rstrip()` */
  function RStrip(s: string): string {
    if s != [] && IsSpace(s[|s| - 1]) then RStrip(s[..|s| - 1]) else s
  }

  /** `s.strip()` */
  function Strip(s: string): string {
    RStrip(LStrip(s))
  }

  /** `s.replace(c, r)` for a pattern of one character. */
  function ReplaceChar(s: string, c: char, r: string): string {
    if s == [] then [] else (if s[0] == c then r else [s[0]]) + ReplaceChar(s[1..], c, r)
  }

  /** `s.replace("\r\n", r)` */
  function ReplaceCrLf(s: string, r: string): string {
    if s == [] then []
    else if |s| >= 2 && s[0] == '\r' && s[1] == '\n' then r + ReplaceCrLf(s[2..], r)
    else [s[0]] + ReplaceCrLf(s[1..], r)
  }

  /** `s.split(d)` for a delimiter of one character; never empty. */
  function SplitOn(s: string, d: char): (parts: seq<string>)
    ensures parts != []
  {
    if s == [] then [""]
    else if s[0] == d then [""] + SplitOn(s[1..], d)
    else
      var rest := SplitOn(s[1..], d);
      [[s[0]] + rest[0]] + rest[1..]
  }

  /** `sep.join(parts)` */
  function Join(parts: seq<string>, sep: string): string {
    if parts == [] then ""
    else if |parts| == 1 then parts[0]
    else parts[0] + sep + Join(parts[1..], sep)
  }

  /** `"".join(parts)` */
  function Concat(parts: seq<string>): string {
    if parts == [] then "" else parts[0] + Concat(parts[1..])
  }

  /** `t in s` */
  predicate Occurs(t: string, s: string) {
    exists k | 0 <= k <= |s| :: OccursAt(t, s, k)
  }

  predicate OccursAt(t: string, s: string, k: nat)
    requires k <= |s|
  {
    k + |t| <= |s| && s[k..k + |t|] == t
  }

  /** `s.partition(c)[0]`: what comes before the first `c`, or everything. */
  function Before(s: string, c: char): string {
    if s == [] || s[0] == c then [] else [s[0]] + Before(s[1..], c)
  }

  /** `s.rsplit(c, 1)[-1]`: what comes after the last `c`, or everything. */
  function AfterLast(s: string, c: char): string {
    if s == [] || s[|s| - 1] == c then [] else AfterLast(s[..|s| - 1], c) + [s[|s| - 1]]
  }

  /**
   `s.upper()`, as far as a comparison with an ASCII word can tell: the letters of ASCII and
   every other character whose upper case holds one. The rest stay as they are, since
   neither they nor their upper case are ASCII.
   */
  function Upper(s: string): string {
    if s == [] then [] else UpperChar(s[0]) + Upper(s[1..])
  }

  function UpperChar(c: char): string {
    if 'a' <= c <= 'z' then [c - 'a' + 'A']
    else if c < '\U{80}' then [c]
    else match c
      case '\U{df}' => "SS"
      case '\U{131}' => "I"
      case '\U{149}' => "\U{2bc}N"
      case '\U{17f}' => "S"
      case '\U{1f0}' => "J\U{30c}"
      case '\U{1e96}' => "H\U{331}"
      case '\U{1e97}' => "T\U{308}"
      case '\U{1e98}' => "W\U{30a}"
      case '\U{1e99}' => "Y\U{30a}"
      case '\U{1e9a}' => "A\U{2be}"
      case '\U{fb00}' => "FF"
      case '\U{fb01}' => "FI"
      case '\U{fb02}' => "FL"
      case '\U{fb03}' => "FFI"
      case '\U{fb04}' => "FFL"
      case '\U{fb05}' => "ST"
      case '\U{fb06}' => "ST"
      case _ => [c]
  }

  // ---- Facts about these operations ----

  lemma {:induction false} ReplaceCharAppend(s: string, t: string, c: char, r: string)
    ensures ReplaceChar(s + t, c, r) == ReplaceChar(s, c, r) + ReplaceChar(t, c, r)
  {
    if s == [] {
      assert s + t == t;
    } else {
      assert (s + t)[1..] == s[1..] + t;
      ReplaceCharAppend(s[1..], t, c, r);
    }
  }

  lemma {:induction false} UpperAppend(s: string, t: string)
    ensures Upper(s + t) == Upper(s) + Upper(t)
  {
    if s == "" {
      assert s + t == t;
    } else {
      assert (s + t)[1..] == s[1..] + t;
      UpperAppend(s[1..], t);
    }
  }

  lemma {:induction false} ReplaceCharAbsent(s: string, c: char, r: string)
    requires c !in s
    ensures ReplaceChar(s, c, r) == s
  {
    if s == [] {
    } else {
      ReplaceCharAbsent(s[1..], c, r);
    }
  }

  /** `s.rstrip()` is a prefix that ends in something else than whitespace, and only whitespace went. */
  lemma {:induction false} RStripIs(s: string)
    ensures var r := RStrip(s);
            && r <= s
            && (r != [] ==> !IsSpace(r[|r| - 1]))
            && forall i | |r| <= i < |s| :: IsSpace(s[i])
  {
    if s != [] && IsSpace(s[|s| - 1]) {
      RStripIs(s[..|s| - 1]);
    }
  }

  lemma {:induction false} LStripIs(s: string)
    ensures var l := LStrip(s);
            && |l| <= |s| && l == s[|s| - |l|..]
            && (l != [] ==> !IsSpace(l[0]))
            && forall i | 0 <= i < |s| - |l| :: IsSpace(s[i])
  {
    if s != [] && IsSpace(s[0]) {
      LStripIs(s[1..]);
      var l := LStrip(s);
      assert l == s[1..][|s| - 1 - |l|..] == s[|s| - |l|..];
      forall i | 0 <= i < |s| - |l| ensures IsSpace(s[i]) {
        if i > 0 { assert s[i] == s[1..][i - 1]; }
      }
    }
  }

  lemma {:induction false} BeforeFirst(h: string, v: string, c: char)
    requires c !in h
    ensures Before(h + [c] + v, c) == h
  {
    if h == [] {
      assert (h + [c] + v)[0] == c;
    } else {
      assert (h + [c] + v)[1..] == h[1..] + [c] + v;
      BeforeFirst(h[1..], v, c);
    }
  }

  lemma {:induction false} SplitOnAppend(s: string, t: string, d: char)
    requires d !in s
    ensures SplitOn(s + [d] + t, d) == [s] + SplitOn(t, d)
    ensures SplitOn(s, d) == [s]
  {
    if s == [] {
      assert (s + [d] + t)[1..] == t;
    } else {
      assert (s + [d] + t)[1..] == s[1..] + [d] + t;
      SplitOnAppend(s[1..], t, d);
      assert [s[0]] + s[1..] == s;
      assert ([s[1..]] + SplitOn(t, d))[1..] == SplitOn(t, d);
    }
  }

  lemma {:induction false} SplitFront(h: string, s: string, d: char)
    requires d !in h
    ensures SplitOn(h + s, d) == [h + SplitOn(s, d)[0]] + SplitOn(s, d)[1..]
  {
    if h == "" {
      assert h + s == s && h + SplitOn(s, d)[0] == SplitOn(s, d)[0];
    } else {
      SplitFront(h[1..], s, d);
      assert (h + s)[1..] == h[1..] + s;
      assert [h[0]] + (h[1..] + SplitOn(s, d)[0]) == h + SplitOn(s, d)[0];
    }
  }

  lemma StripTwice(text: string)
    ensures Strip(Strip(text)) == Strip(text)
  {
    var l := LStrip(text);
    LStripIs(text);
    RStripIs(l);
    StripAgain(l, Strip(text));
  }

  lemma StripAgain(l: string, s: string)
    requires s <= l && (l != "" ==> !IsSpace(l[0])) && (s != "" ==> !IsSpace(s[|s| - 1]))
    ensures Strip(s) == s
  {
    assert s != "" ==> s[0] == l[0];
    assert LStrip(s) == s;
  }

  lemma {:induction false} ConcatAppend(a: seq<string>, b: seq<string>)
    ensures Concat(a + b) == Concat(a) + Concat(b)
  {
    if a == [] {
      assert a + b == b;
    } else {
      assert (a + b)[1..] == a[1..] + b;
      ConcatAppend(a[1..], b);
    }
  }

  lemma RStripUnique(s: string, r: string)
    requires r <= s && (r != [] ==> !IsSpace(r[|r| - 1])) && forall i | |r| <= i < |s| :: IsSpace(s[i])
    ensures RStrip(s) == r
  {
    RStripIs(s);
    var q := RStrip(s);
    assert r != [] ==> r[|r| - 1] == s[|r| - 1];
    assert q != [] ==> q[|q| - 1] == s[|q| - 1];
  }
}
