/**
 Line folding (section 3.2 of RFC 6350) as backend/app/importers/vcard.py does it: at most 75
 octets a line, never a cut inside a character. Reading also rejoins soft breaks.
 */
module VcardFold {
  import opened Text

  const LIMIT: nat := 75

  /** The length of a character in UTF-8. */
  function Octets(c: char): nat {
    if c < '\U{80}' then 1 else if c < '\U{800}' then 2 else if c < '\U{10000}' then 3 else 4
  }

  function OctetLength(s: string): nat {
    if s == [] then 0 else OctetLength(s[..|s| - 1]) + Octets(s[|s| - 1])
  }

  /** The bytes of a character (section 3 of RFC 3629). */
  function Encoded(c: char): seq<int> {
    var n := c as int;
    if n < 0x80 then [n]
    else if n < 0x800 then [0xC0 + n / 64, 0x80 + n % 64]
    else if n < 0x10000 then [0xE0 + n / 4096, 0x80 + n / 64 % 64, 0x80 + n % 64]
    else [0xF0 + n / 262144, 0x80 + n / 4096 % 64, 0x80 + n / 64 % 64, 0x80 + n % 64]
  }

  /** `s.encode("utf-8")` */
  function Utf8(s: string): seq<int> {
    if s == [] then [] else Utf8(s[..|s| - 1]) + Encoded(s[|s| - 1])
  }

  lemma {:induction false} OctetsAreBytes(s: string)
    ensures OctetLength(s) == |Utf8(s)|
  {
    if s != [] {
      OctetsAreBytes(s[..|s| - 1]);
    }
  }

  predicate Overflows(current: string, c: char) {
    OctetLength(current + [c]) > LIMIT && current != ""
  }

  /** The physical lines still to come when `current` is being filled and `rest` is left. */
  function FoldFrom(current: string, rest: string): seq<string>
    decreases |rest|
  {
    if rest == [] then if current != "" then [current] else []
    else if Overflows(current, rest[0]) then [current] + FoldFrom(" " + rest[..1], rest[1..])
    else FoldFrom(current + rest[..1], rest[1..])
  }

  /** The physical lines of one logical line. */
  function Folded(line: string): seq<string> {
    if OctetLength(line) <= LIMIT then [line] else FoldFrom("", line)
  }

  method FoldLine(line: string) returns (r: string)
    ensures r == Join(Folded(line), "\r\n")
  {
    if OctetLength(line) <= LIMIT {
      return line;
    }
    var parts: seq<string> := [];
    var current := "";
    var i := 0;
    while i < |line|
      invariant 0 <= i <= |line|
      invariant parts + FoldFrom(current, line[i..]) == FoldFrom("", line)
    {
      assert line[i..][0] == line[i] && line[i..][..1] == [line[i]] && line[i..][1..] == line[i + 1..];
      if OctetLength(current + [line[i]]) > LIMIT && current != "" {
        parts := parts + [current];
        current := " " + [line[i]];
      } else {
        current := current + [line[i]];
      }
      i := i + 1;
    }
    assert line[i..] == "";
    ghost var cut := parts;
    if current != "" {
      parts := parts + [current];
    } else {
      assert cut + [] == cut;
    }
    r := Join(parts, "\r\n");
  }

  /** No physical line is longer than 75 octets. */
  lemma {:induction false} FoldFromFits(current: string, rest: string, i: nat)
    requires OctetLength(current) <= LIMIT && i < |FoldFrom(current, rest)|
    ensures OctetLength(FoldFrom(current, rest)[i]) <= LIMIT
    decreases |rest|
  {
    if rest == [] {
    } else {
      var c := rest[0];
      assert rest[..1] == [c];
      if Overflows(current, c) {
        if i > 0 {
          assert (" " + [c])[..1] == " " && " "[..0] == "";
          FoldFromFits(" " + [c], rest[1..], i - 1);
        }
      } else {
        assert current == "" ==> ([c] == current + [c] && [c][..0] == "");
        FoldFromFits(current + [c], rest[1..], i);
      }
    }
  }

  lemma FoldedFits(line: string, i: nat)
    requires i < |Folded(line)|
    ensures |Utf8(Folded(line)[i])| <= 75
  {
    OctetsAreBytes(Folded(line)[i]);
    if OctetLength(line) > LIMIT {
      FoldFromFits("", line, i);
    }
  }

  /** A line is cut only where the next character no longer fits. */
  lemma {:induction false} FoldFromIsGreedy(current: string, rest: string, i: nat)
    requires i + 1 < |FoldFrom(current, rest)|
    ensures var parts := FoldFrom(current, rest);
            |parts[i + 1]| >= 2 && parts[i + 1][0] == ' ' && |Utf8(parts[i] + [parts[i + 1][1]])| > 75
    decreases |rest|
  {
    if rest != [] {
      var c := rest[0];
      assert rest[..1] == [c];
      OctetsAreBytes(current + [c]);
      if Overflows(current, c) {
        if i > 0 {
          FoldFromIsGreedy(" " + [c], rest[1..], i - 1);
        } else {
          FoldFromStarts(" " + [c], rest[1..]);
        }
      } else {
        FoldFromIsGreedy(current + [c], rest[1..], i);
      }
    }
  }

  lemma {:induction false} FoldFromStarts(current: string, rest: string)
    requires current != ""
    ensures var parts := FoldFrom(current, rest); parts != [] && current <= parts[0]
    decreases |rest|
  {
    if rest != [] && !Overflows(current, rest[0]) {
      FoldFromStarts(current + rest[..1], rest[1..]);
    }
  }

  // ---- Reading ----

  /** `text.replace("\r\n", "\n").replace("\r", "\n").split("\n")` */
  function PhysicalLines(text: string): (lines: seq<string>)
    ensures lines != []
  {
    SplitOn(ReplaceChar(ReplaceCrLf(text, "\n"), '\r', "\n"), '\n')
  }

  predicate IsQuotedPrintable(header: string) {
    Occurs("QUOTED-PRINTABLE", Upper(header))
  }

  predicate EndsWithEquals(line: string) {
    var r := RStrip(line);
    r != "" && r[|r| - 1] == '='
  }

  /** The line ends in a quoted-printable soft break, as far as it has been read. */
  predicate SoftBreak(line: string) {
    EndsWithEquals(line) && IsQuotedPrintable(Before(line, ':'))
  }

  /** `line.rstrip()[:-1]` */
  function WithoutLast(line: string): string {
    var r := RStrip(line);
    if r == "" then "" else r[..|r| - 1]
  }

  /** Reading one more physical line; `None` for a blank one, which changes nothing. */
  function Take(lines: seq<string>, soft: bool, raw: string): (r: seq<string>)
    requires soft ==> lines != []
  {
    var n := |lines|;
    if soft then lines[..n - 1] + [WithoutLast(lines[n - 1]) + raw]
    else if lines != [] && raw != "" && (raw[0] == ' ' || raw[0] == '\t') then lines[..n - 1] + [lines[n - 1] + raw[1..]]
    else if Strip(raw) != "" then lines + [raw]
    else lines
  }

  predicate IsSkipped(lines: seq<string>, soft: bool, raw: string) {
    !soft && !(lines != [] && raw != "" && (raw[0] == ' ' || raw[0] == '\t')) && Strip(raw) == ""
  }

  /** The logical lines, untrimmed, once every line of `raw` has been read too. */
  function UnfoldFrom(lines: seq<string>, soft: bool, raw: seq<string>): seq<string>
    requires soft ==> lines != []
    decreases |raw|
  {
    if raw == [] then lines
    else if IsSkipped(lines, soft, raw[0]) then UnfoldFrom(lines, false, raw[1..])
    else
      var next := Take(lines, soft, raw[0]);
      UnfoldFrom(next, SoftBreak(next[|next| - 1]), raw[1..])
  }

  /** `[line.strip() for line in lines if line.strip()]` */
  function Trimmed(lines: seq<string>): seq<string> {
    if lines == [] then []
    else (if Strip(lines[0]) == "" then [] else [Strip(lines[0])]) + Trimmed(lines[1..])
  }

  function Unfolded(text: string): seq<string> {
    Trimmed(UnfoldFrom([], false, PhysicalLines(text)))
  }

  method UnfoldLines(text: string) returns (result: seq<string>)
    ensures result == Unfolded(text)
  {
    var lines: seq<string> := [];
    var soft := false;
    var raw := PhysicalLines(text);
    var i := 0;
    while i < |raw|
      invariant 0 <= i <= |raw|
      invariant soft ==> lines != []
      invariant UnfoldFrom(lines, soft, raw[i..]) == UnfoldFrom([], false, raw)
    {
      ghost var before, wasSoft := lines, soft;
      var rawLine := raw[i];
      assert raw[i..][0] == rawLine && raw[i..][1..] == raw[i + 1..];
      i := i + 1;
      if soft {
        lines := lines[|lines| - 1 := WithoutLast(lines[|lines| - 1]) + rawLine];
      } else if lines != [] && rawLine != "" && (rawLine[0] == ' ' || rawLine[0] == '\t') {
        lines := lines[|lines| - 1 := lines[|lines| - 1] + rawLine[1..]];
      } else if Strip(rawLine) != "" {
        lines := lines + [rawLine];
      } else {
        continue;
      }
      assert lines == Take(before, wasSoft, rawLine);
      soft := SoftBreak(lines[|lines| - 1]);
    }
    result := StripLines(lines);
  }

  /** `[line.strip() for line in lines if line.strip()]` */
  method StripLines(lines: seq<string>) returns (result: seq<string>)
    ensures result == Trimmed(lines)
  {
    result := [];
    var i := 0;
    while i < |lines|
      invariant 0 <= i <= |lines|
      invariant result + Trimmed(lines[i..]) == Trimmed(lines)
    {
      TrimmedSoFar(result, lines, i);
      var trimmed := Strip(lines[i]);
      if trimmed != "" {
        result := result + [trimmed];
      }
      i := i + 1;
    }
  }

  // ---- Reading what was folded ----

  lemma SeqsRegroup(a: seq<string>, b: seq<string>, c: seq<string>)
    ensures a + (b + c) == a + b + c
  {
  }

  /** What the loop puts behind its result is what is next in the rest. */
  lemma TrimmedSoFar(result: seq<string>, lines: seq<string>, i: nat)
    requires i < |lines|
    ensures result + Trimmed(lines[i..])
         == (if Strip(lines[i]) == "" then result else result + [Strip(lines[i])]) + Trimmed(lines[i + 1..])
  {
    assert lines[i..][1..] == lines[i + 1..];
    SeqsRegroup(result, [Strip(lines[i])], Trimmed(lines[i + 1..]));
    assert [] + Trimmed(lines[i + 1..]) == Trimmed(lines[i + 1..]);
  }

  /** No character at which reading breaks a line. */
  predicate NoBreaks(s: string) { '\r' !in s && '\n' !in s }

  /**
   The logical text read so far at each place where `FoldFrom(current, rest)` cuts,
   `done` being the logical text that ends with `current`.
   */
  function CutsFrom(done: string, current: string, rest: string): seq<string>
    decreases |rest|
  {
    if rest == [] then []
    else if Overflows(current, rest[0]) then [done] + CutsFrom(done + rest[..1], " " + rest[..1], rest[1..])
    else CutsFrom(done + rest[..1], current + rest[..1], rest[1..])
  }

  function Cuts(line: string): seq<string> {
    if OctetLength(line) <= LIMIT then [] else CutsFrom("", "", line)
  }

  /** Nowhere does a cut follow what reads as a quoted-printable soft break. */
  predicate CutsCleanly(line: string) {
    forall i | 0 <= i < |Cuts(line)| :: !SoftBreak(Cuts(line)[i])
  }

  /** Reading the continuation lines puts the rest of the logical line back. */
  lemma {:induction false} UnfoldContinues(lines: seq<string>, done: string, chunk: string, rest: string, more: seq<string>)
    requires chunk != ""
    requires forall p | p in CutsFrom(done + chunk, " " + chunk, rest) :: !SoftBreak(p)
    ensures UnfoldFrom(lines + [done], false, FoldFrom(" " + chunk, rest) + more)
         == UnfoldFrom(lines + [done + chunk + rest], SoftBreak(done + chunk + rest), more)
    decreases |rest|
  {
    var first := " " + chunk;
    assert first[1..] == chunk;
    if rest == [] {
      assert done + chunk + rest == done + chunk;
      assert ([first] + more)[1..] == more;
      assert Take(lines + [done], false, first) == lines + [done + chunk];
    } else {
      var c := rest[..1];
      var cuts := CutsFrom(done + chunk, first, rest);
      assert done + chunk + rest == done + (chunk + c) + rest[1..] == (done + chunk) + c + rest[1..];
      if Overflows(first, rest[0]) {
        var tail := FoldFrom(" " + c, rest[1..]) + more;
        assert FoldFrom(first, rest) + more == [first] + tail;
        assert ([first] + tail)[1..] == tail;
        assert Take(lines + [done], false, first) == lines + [done + chunk];
        assert !SoftBreak(cuts[0]);
        forall p | p in CutsFrom(done + chunk + c, " " + c, rest[1..]) ensures !SoftBreak(p) {
          assert p in cuts;
        }
        UnfoldContinues(lines, done + chunk, c, rest[1..], more);
      } else {
        assert first + c == " " + (chunk + c);
        assert done + chunk + c == done + (chunk + c);
        UnfoldContinues(lines, done, chunk + c, rest[1..], more);
      }
    }
  }

  /** The same from the first physical line on. */
  lemma {:induction false} UnfoldBegins(lines: seq<string>, current: string, rest: string, more: seq<string>)
    requires current != "" && !IsSpace(current[0])
    requires forall p | p in CutsFrom(current, current, rest) :: !SoftBreak(p)
    ensures UnfoldFrom(lines, false, FoldFrom(current, rest) + more)
         == UnfoldFrom(lines + [current + rest], SoftBreak(current + rest), more)
    decreases |rest|
  {
    StripKeepsFirst(current);
    if rest == [] {
      assert current + rest == current;
      assert ([current] + more)[1..] == more;
    } else {
      var c := rest[..1];
      assert current + rest == current + c + rest[1..];
      var cuts := CutsFrom(current, current, rest);
      if Overflows(current, rest[0]) {
        var tail := FoldFrom(" " + c, rest[1..]) + more;
        assert FoldFrom(current, rest) + more == [current] + tail;
        assert ([current] + tail)[1..] == tail;
        assert !SoftBreak(cuts[0]);
        forall p | p in CutsFrom(current + c, " " + c, rest[1..]) ensures !SoftBreak(p) {
          assert p in cuts;
        }
        UnfoldContinues(lines, current, c, rest[1..], more);
      } else {
        UnfoldBegins(lines, current + c, rest[1..], more);
      }
    }
  }

  lemma StripKeepsFirst(s: string)
    requires s != "" && !IsSpace(s[0])
    ensures Strip(s) == RStrip(s) && Strip(s) != "" && Strip(s)[0] == s[0]
  {
    RStripIs(s);
  }

  lemma LongLine(line: string)
    requires OctetLength(line) > LIMIT
    ensures line != "" && line[..1] + line[1..] == line
    ensures Folded(line) == FoldFrom(line[..1], line[1..]) && Cuts(line) == CutsFrom(line[..1], line[..1], line[1..])
  {
    assert "" + line[..1] == line[..1];
  }

  /** One logical line, folded, reads as itself in front of whatever follows. */
  lemma UnfoldFolded(lines: seq<string>, line: string, more: seq<string>)
    requires line != "" && !IsSpace(line[0]) && CutsCleanly(line)
    ensures UnfoldFrom(lines, false, Folded(line) + more) == UnfoldFrom(lines + [line], SoftBreak(line), more)
  {
    if OctetLength(line) <= LIMIT {
      StripKeepsFirst(line);
      assert ([line] + more)[1..] == more;
    } else {
      LongLine(line);
      forall p | p in Cuts(line) ensures !SoftBreak(p) {
        var i :| 0 <= i < |Cuts(line)| && Cuts(line)[i] == p;
      }
      UnfoldBegins(lines, line[..1], line[1..], more);
    }
  }

  // ---- From the text to its physical lines ----

  lemma {:induction false} ReplaceCrLfPlain(p: string, rest: string)
    requires '\n' !in p
    ensures ReplaceCrLf(p + ("\r\n" + rest), "\n") == p + ("\n" + ReplaceCrLf(rest, "\n"))
  {
    var end := "\r\n" + rest;
    if p == "" {
      assert end[2..] == rest && p + end == end;
      assert p + ("\n" + ReplaceCrLf(rest, "\n")) == "\n" + ReplaceCrLf(rest, "\n");
    } else {
      ReplaceCrLfPlain(p[1..], rest);
      assert (p + end)[1..] == p[1..] + end;
      HeadStays(p, "\n" + ReplaceCrLf(rest, "\n"));
    }
  }

  lemma HeadStays(p: string, rest: string)
    requires p != ""
    ensures [p[0]] + (p[1..] + rest) == p + rest
  {
  }

  lemma {:induction false} ReplaceCrLfAbsent(p: string)
    requires '\n' !in p
    ensures ReplaceCrLf(p, "\n") == p
  {
    if p != "" {
      ReplaceCrLfAbsent(p[1..]);
    }
  }

  lemma PhysicalAppend(p: string, rest: string)
    requires NoBreaks(p)
    ensures PhysicalLines(p + "\r\n" + rest) == [p] + PhysicalLines(rest)
    ensures PhysicalLines(p) == [p]
  {
    ReplaceCrLfPlain(p, rest);
    ReplaceCrLfAbsent(p);
    assert p + "\r\n" + rest == p + ("\r\n" + rest);
    var tail := ReplaceCrLf(rest, "\n");
    assert p + ("\n" + tail) == p + "\n" + tail;
    ReplaceCharAppend(p + "\n", tail, '\r', "\n");
    ReplaceCharAbsent(p + "\n", '\r', "\n");
    ReplaceCharAbsent(p, '\r', "\n");
    var s := ReplaceChar(tail, '\r', "\n");
    SplitOnAppend(p, s, '\n');
    assert p + ['\n'] + s == p + "\n" + s;
  }

  lemma {:induction false} PhysicalJoined(parts: seq<string>, rest: string)
    requires parts != [] && forall p | p in parts :: NoBreaks(p)
    ensures PhysicalLines(Join(parts, "\r\n") + "\r\n" + rest) == parts + PhysicalLines(rest)
    ensures PhysicalLines(Join(parts, "\r\n")) == parts
  {
    if |parts| == 1 {
      PhysicalAppend(parts[0], rest);
    } else {
      PhysicalJoined(parts[1..], rest);
      var tail := Join(parts[1..], "\r\n");
      PhysicalAppend(parts[0], tail + "\r\n" + rest);
      PhysicalAppend(parts[0], tail);
      assert Join(parts, "\r\n") + "\r\n" + rest == parts[0] + "\r\n" + (tail + "\r\n" + rest);
      assert [parts[0]] + parts[1..] == parts;
      assert [parts[0]] + (parts[1..] + PhysicalLines(rest)) == parts + PhysicalLines(rest);
    }
  }

  lemma {:induction false} FoldFromNoBreaks(current: string, rest: string, p: string)
    requires NoBreaks(current) && NoBreaks(rest) && p in FoldFrom(current, rest)
    ensures NoBreaks(p)
    decreases |rest|
  {
    if rest != [] {
      if Overflows(current, rest[0]) {
        if p != current {
          FoldFromNoBreaks(" " + rest[..1], rest[1..], p);
        }
      } else {
        FoldFromNoBreaks(current + rest[..1], rest[1..], p);
      }
    }
  }

  lemma FoldedNoBreaks(line: string)
    requires NoBreaks(line)
    ensures Folded(line) != [] && forall p | p in Folded(line) :: NoBreaks(p)
  {
    if OctetLength(line) > LIMIT {
      assert line != "";
      FoldFromStarts(line[..1], line[1..]);
      assert "" + line[..1] == line[..1];
      forall p | p in Folded(line) ensures NoBreaks(p) {
        FoldFromNoBreaks("", line, p);
      }
    }
  }
}
