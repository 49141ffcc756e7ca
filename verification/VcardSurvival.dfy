/**
 Which logical lines survive being folded and unfolded again (backend/app/importers/vcard.py,
 `_fold_line` and `_unfold_lines`): exactly those that no fold cuts after a soft break. A cut
 there puts a blank where the equals sign was, and nothing that is read later mends it.
 */
module VcardSurvival {
  import opened Text
  import opened VcardFold

  // ---- Exactly which lines survive ----

  /** The logical lines of a text written as one folded line. */
  function ReadBack(line: string): seq<string> {
    Unfolded(Join(Folded(line), "\r\n"))
  }

  /** `read` has a blank where `line` has an equals sign, and agrees with it before that. */
  predicate SpoiltAt(read: string, line: string, p: nat) {
    0 < p < |read| && p < |line| && read[..p] == line[..p] && line[p] == '=' && read[p] == ' '
  }

  lemma {:induction false} UpperOfBlanks(s: string)
    requires forall i | 0 <= i < |s| :: s[i] == '=' || IsSpace(s[i])
    ensures Upper(s) == s && !IsQuotedPrintable(s)
  {
    if s != [] {
      UpperOfBlanks(s[1..]);
    }
    forall k | 0 <= k <= |s| ensures !OccursAt("QUOTED-PRINTABLE", s, k) {
      if k + 16 <= |s| {
        assert s[k..k + 16][0] == s[k];
      }
    }
  }

  lemma {:induction false} BeforeAbsent(s: string, c: char)
    requires c !in s
    ensures Before(s, c) == s
  {
    if s != [] {
      BeforeAbsent(s[1..], c);
    }
  }

  /** A soft break never stands at the very front: there would be no header to announce it. */
  lemma SoftBreakIsLate(read: string)
    requires SoftBreak(read)
    ensures |RStrip(read)| > 1
  {
    RStripIs(read);
    if |RStrip(read)| == 1 {
      forall i | 0 <= i < |read| ensures read[i] == '=' || IsSpace(read[i]) {
        if i == 0 { assert RStrip(read)[0] == read[0]; }
      }
      BeforeAbsent(read, ':');
      UpperOfBlanks(read);
    }
  }

  /** Rejoining at a soft break replaces the equals sign by the blank of the continuation line. */
  lemma RejoiningSpoils(read: string, line: string, raw: string, p: nat) returns (q: nat)
    requires SoftBreak(read) && raw != "" && raw[0] == ' '
    requires read <= line || SpoiltAt(read, line, p)
    ensures SpoiltAt(WithoutLast(read) + raw, line, q)
  {
    SoftBreakIsLate(read);
    RStripIs(read);
    q := |RStrip(read)| - 1;
    assert read[q] == RStrip(read)[q] == '=';
    var next := WithoutLast(read) + raw;
    assert next[q] == ' ' && next[..q] == read[..q];
    if SpoiltAt(read, line, p) && p < q {
      q := p;
      assert next[p] == next[..|RStrip(read)| - 1][p] == read[p];
      assert next[..p] == read[..p];
    } else {
      if !(read <= line) {
        assert read[..q] == read[..p][..q] == line[..q];
        assert read[q] == read[..p][q] == line[q];
      }
    }
  }

  lemma {:induction false} SpoiltStaysSpoilt(read: string, soft: bool, raw: seq<string>, line: string, p: nat) returns (last: string, q: nat)
    requires soft ==> SoftBreak(read)
    requires SpoiltAt(read, line, p) || (soft && read <= line && raw != [])
    requires forall r | r in raw :: r != "" && r[0] == ' '
    ensures UnfoldFrom([read], soft, raw) == [last] && SpoiltAt(last, line, q)
    decreases |raw|
  {
    if raw == [] {
      last, q := read, p;
    } else {
      assert raw[0] in raw && forall r | r in raw[1..] :: r in raw;
      var next := if soft then WithoutLast(read) + raw[0] else read + raw[0][1..];
      assert Take([read], soft, raw[0]) == [next];
      if soft {
        q := RejoiningSpoils(read, line, raw[0], p);
      } else {
        q := p;
        assert next[..p] == read[..p];
      }
      last, q := SpoiltStaysSpoilt(next, SoftBreak(next), raw[1..], line, q);
    }
  }

  lemma {:induction false} FoldFromBlank(current: string, rest: string, p: string)
    requires current != "" && current[0] == ' ' && p in FoldFrom(current, rest)
    ensures p != "" && p[0] == ' '
    decreases |rest|
  {
    if rest != [] {
      if Overflows(current, rest[0]) {
        if p != current {
          FoldFromBlank(" " + rest[..1], rest[1..], p);
        }
      } else {
        FoldFromBlank(current + rest[..1], rest[1..], p);
      }
    }
  }

  /** After a cut behind a soft break the line comes back spoilt, whatever follows. */
  lemma SpoiltAfterSoftCut(done: string, rest: string, line: string) returns (last: string, q: nat)
    requires rest != [] && done <= line && SoftBreak(done)
    ensures UnfoldFrom([done], true, FoldFrom(" " + rest[..1], rest[1..])) == [last] && SpoiltAt(last, line, q)
  {
    var raw := FoldFrom(" " + rest[..1], rest[1..]);
    FoldFromStarts(" " + rest[..1], rest[1..]);
    forall r | r in raw ensures r != "" && r[0] == ' ' {
      FoldFromBlank(" " + rest[..1], rest[1..], r);
    }
    last, q := SpoiltStaysSpoilt(done, true, raw, line, 0);
  }

  lemma {:induction false} SpoiltContinuing(done: string, chunk: string, rest: string, line: string) returns (last: string, q: nat)
    requires chunk != "" && done + chunk + rest == line
    requires exists p :: p in CutsFrom(done + chunk, " " + chunk, rest) && SoftBreak(p)
    ensures UnfoldFrom([done], false, FoldFrom(" " + chunk, rest)) == [last] && SpoiltAt(last, line, q)
    decreases |rest|
  {
    var first, c := " " + chunk, rest[..1];
    ChunkMoves(done, chunk, rest);
    if Overflows(first, rest[0]) {
      UnfoldOverflow(done, chunk, rest);
      if SoftBreak(done + chunk) {
        last, q := SpoiltAfterSoftCut(done + chunk, rest, line);
      } else {
        var p :| p in CutsFrom(done + chunk, first, rest) && SoftBreak(p);
        assert p in CutsFrom(done + chunk + c, " " + c, rest[1..]);
        last, q := SpoiltContinuing(done + chunk, c, rest[1..], line);
      }
    } else {
      last, q := SpoiltContinuing(done, chunk + c, rest[1..], line);
    }
  }

  lemma ChunkMoves(done: string, chunk: string, rest: string)
    requires rest != ""
    ensures done + chunk + rest[..1] + rest[1..] == done + chunk + rest
    ensures done + (chunk + rest[..1]) == done + chunk + rest[..1] && " " + chunk + rest[..1] == " " + (chunk + rest[..1])
  {
    assert [rest[0]] == rest[..1];
  }

  /** A full line is taken as it is, and the next begins. */
  lemma UnfoldOverflow(done: string, chunk: string, rest: string)
    requires chunk != "" && rest != "" && Overflows(" " + chunk, rest[0])
    ensures UnfoldFrom([done], false, FoldFrom(" " + chunk, rest))
         == UnfoldFrom([done + chunk], SoftBreak(done + chunk), FoldFrom(" " + rest[..1], rest[1..]))
  {
    var first, tail := " " + chunk, FoldFrom(" " + rest[..1], rest[1..]);
    assert first[1..] == chunk;
    assert ([first] + tail)[1..] == tail;
    assert Take([done], false, first) == [done + chunk];
  }

  lemma {:induction false} SpoiltBeginning(current: string, rest: string, line: string) returns (last: string, q: nat)
    requires current != "" && !IsSpace(current[0]) && current + rest == line
    requires exists p :: p in CutsFrom(current, current, rest) && SoftBreak(p)
    ensures UnfoldFrom([], false, FoldFrom(current, rest)) == [last] && SpoiltAt(last, line, q)
    decreases |rest|
  {
    StripKeepsFirst(current);
    var c := rest[..1];
    assert current + c + rest[1..] == line;
    if Overflows(current, rest[0]) {
      var tail := FoldFrom(" " + c, rest[1..]);
      assert ([current] + tail)[1..] == tail;
      assert Take([], false, current) == [current];
      if SoftBreak(current) {
        last, q := SpoiltAfterSoftCut(current, rest, line);
      } else {
        var p :| p in CutsFrom(current, current, rest) && SoftBreak(p);
        assert p in CutsFrom(current + c, " " + c, rest[1..]);
        last, q := SpoiltContinuing(current, c, rest[1..], line);
      }
    } else {
      last, q := SpoiltBeginning(current + c, rest[1..], line);
    }
  }

  /** A logical line that cannot be told apart from its trimmed form, and holds no line break. */
  predicate IsLogicalLine(line: string) {
    line != "" && !IsSpace(line[0]) && !IsSpace(line[|line| - 1]) && NoBreaks(line)
  }

  lemma CleanLineReadsBack(line: string)
    requires IsLogicalLine(line) && CutsCleanly(line)
    ensures ReadBack(line) == [line]
  {
    FoldedNoBreaks(line);
    PhysicalJoined(Folded(line), "");
    StripKeepsFirst(line);
    UnfoldFolded([], line, []);
    assert Folded(line) + [] == Folded(line) && [] + [line] == [line];
    TrimmedOne(line);
  }

  lemma UncleanLineIsSpoilt(line: string)
    requires IsLogicalLine(line) && !CutsCleanly(line)
    ensures ReadBack(line) != [line]
  {
    FoldedNoBreaks(line);
    PhysicalJoined(Folded(line), "");
    LongLine(line);
    var i :| 0 <= i < |Cuts(line)| && SoftBreak(Cuts(line)[i]);
    assert Cuts(line)[i] in CutsFrom(line[..1], line[..1], line[1..]);
    var last, q := SpoiltBeginning(line[..1], line[1..], line);
    SpoiltIsNotTheLine(last, line, q);
    TrimmedOne(last);
  }

  lemma TrimmedOne(line: string)
    requires Strip(line) != ""
    ensures Trimmed([line]) == [Strip(line)]
  {
    assert Trimmed([line][1..]) == [];
  }

  lemma SpoiltIsNotTheLine(last: string, line: string, q: nat)
    requires SpoiltAt(last, line, q) && !IsSpace(line[0])
    ensures Strip(last) != line && Strip(last) != ""
  {
    assert last[0] == last[..q][0] == line[..q][0];
    StripKeepsFirst(last);
    RStripIs(last);
    if |RStrip(last)| > q {
      assert RStrip(last)[q] == last[q];
    }
  }

  /**
   A logical line survives folding and unfolding exactly if no cut of the folder follows a
   quoted-printable soft break. Nothing else is ever lost: not a cut inside an escape pair,
   not one before a blank.
   */
  lemma FoldedLineReadsBackExactly(line: string)
    requires IsLogicalLine(line)
    ensures ReadBack(line) == [line] <==> CutsCleanly(line)
  {
    if CutsCleanly(line) {
      CleanLineReadsBack(line);
    } else {
      UncleanLineIsSpoilt(line);
    }
  }

  /** In particular every line whose header is not marked quoted-printable survives. */
  lemma PlainLineReadsBack(h: string, v: string)
    requires IsLogicalLine(h + ":" + v) && ':' !in h && OctetLength(h) + 1 <= LIMIT - 4
    requires !IsQuotedPrintable(h)
    ensures CutsCleanly(h + ":" + v) && !SoftBreak(h + ":" + v)
    ensures ReadBack(h + ":" + v) == [h + ":" + v]
  {
    PlainLineCutsCleanly(h, v);
    FoldedLineReadsBackExactly(h + ":" + v);
  }

  lemma {:induction false} OctetLengthAppend(s: string, t: string)
    ensures OctetLength(s + t) == OctetLength(s) + OctetLength(t)
  {
    if t == "" {
      assert s + t == s;
    } else {
      OctetLengthAppend(s, t[..|t| - 1]);
      assert (s + t)[..|s + t| - 1] == s + t[..|t| - 1];
    }
  }

  /** A line is cut no earlier than four octets before the limit, at a prefix of it. */
  lemma {:induction false} CutsAreLate(done: string, current: string, rest: string, p: string)
    requires p in CutsFrom(done, current, rest)
    requires current == done || OctetLength(done) > LIMIT - 4
    ensures p <= done + rest && OctetLength(p) > LIMIT - 4
    decreases |rest|
  {
    if rest != [] {
      assert done + rest == done + rest[..1] + rest[1..];
      if Overflows(current, rest[0]) {
        if p != done {
          CutsAreLate(done + rest[..1], " " + rest[..1], rest[1..], p);
        }
      } else {
        CutsAreLate(done + rest[..1], current + rest[..1], rest[1..], p);
      }
    }
  }

  /** What has been read at a cut still holds the whole header. */
  lemma CutKeepsHeader(h: string, v: string, p: string)
    requires ':' !in h && OctetLength(h) + 1 <= LIMIT - 4
    requires p <= h + ":" + v && OctetLength(p) > LIMIT - 4
    ensures Before(p, ':') == h
  {
    if |p| <= |h| {
      assert p + h[|p|..] == h;
      OctetLengthAppend(p, h[|p|..]);
    } else {
      assert p == h + ":" + p[|h| + 1..];
      BeforeFirst(h, p[|h| + 1..], ':');
    }
  }

  lemma PlainLineCutsCleanly(h: string, v: string)
    requires ':' !in h && OctetLength(h) + 1 <= LIMIT - 4 && !IsQuotedPrintable(h)
    ensures CutsCleanly(h + ":" + v) && !SoftBreak(h + ":" + v)
  {
    var line := h + ":" + v;
    BeforeFirst(h, v, ':');
    forall i | 0 <= i < |Cuts(line)| ensures !SoftBreak(Cuts(line)[i]) {
      var p := Cuts(line)[i];
      CutsAreLate("", "", line, p);
      assert "" + line == line;
      CutKeepsHeader(h, v, p);
    }
  }

  // ---- A line that does not survive ----

  lemma {:induction false} FirstCut(done: string, rest: string)
    requires done != "" && rest != ""
    requires OctetLength(done) <= LIMIT < OctetLength(done + rest[..1])
    ensures Cuts(done + rest) != [] && Cuts(done + rest)[0] == done
  {
    OctetLengthAppend(done + rest[..1], rest[1..]);
    assert done + rest == done + rest[..1] + rest[1..];
    assert "" + done == done;
    FirstCutFrom("", done, rest);
  }

  lemma {:induction false} FirstCutFrom(done: string, ahead: string, rest: string)
    requires done + ahead != "" && rest != ""
    requires OctetLength(done + ahead) <= LIMIT < OctetLength(done + ahead + rest[..1])
    ensures var cuts := CutsFrom(done, done, ahead + rest); cuts != [] && cuts[0] == done + ahead
    decreases |ahead|
  {
    if ahead == "" {
      assert ahead + rest == rest && done + ahead == done;
    } else {
      var c := ahead[..1];
      HeadOfBoth(done, ahead, rest);
      OctetLengthAppend(done + c, ahead[1..]);
      FirstCutFrom(done + c, ahead[1..], rest);
    }
  }

  lemma HeadOfBoth(done: string, ahead: string, rest: string)
    requires ahead != ""
    ensures ahead + rest != "" && (ahead + rest)[..1] == ahead[..1] && (ahead + rest)[0] == ahead[0] && (ahead + rest)[1..] == ahead[1..] + rest
    ensures done + ahead[..1] + ahead[1..] == done + ahead && done + [ahead[0]] == done + ahead[..1]
  {
  }

  lemma {:induction false} UpperOfCapitals(s: string)
    requires forall i | 0 <= i < |s| :: s[i] < '\U{80}' && !('a' <= s[i] <= 'z')
    ensures Upper(s) == s
  {
    if s != [] {
      UpperOfCapitals(s[1..]);
    }
  }

  predicate IsVisible(s: string) {
    forall i | 0 <= i < |s| :: s[i] < '\U{80}' && !IsSpace(s[i])
  }

  /**
   The promise is false of quoted-printable lines with an equals sign as their 75th octet:
   each of them comes back different.
   */
  lemma QuotedPrintableLineIsSpoilt(h: string, body: string)
    requires IsVisible(h) && IsVisible(body) && ':' !in h && IsQuotedPrintable(h)
    requires h != "" && |h| + 1 + |body| + 1 == LIMIT
    ensures var line := h + ":" + body + "=" + "y"; IsLogicalLine(line) && ReadBack(line) != [line]
  {
    var done := h + ":" + body + "=";
    var line := done + "y";
    assert IsVisible(":") && IsVisible("=") && IsVisible("y");
    assert IsVisible(done) && IsVisible(line);
    AsciiLength(done);
    AsciiLength(line);
    assert "y"[..1] == "y";
    FirstCut(done, "y");
    assert done == h + [':'] + (body + "=");
    BeforeFirst(h, body + "=", ':');
    assert !CutsCleanly(line);
    assert IsLogicalLine(line);
    FoldedLineReadsBackExactly(line);
  }

  /** Such are the headers that hold the mark in any case, whatever stands before and behind it. */
  lemma SuchHeadersExist(a: string, mark: string, b: string)
    requires Upper(mark) == "QUOTED-PRINTABLE"
    requires IsVisible(a) && IsVisible(mark) && IsVisible(b) && ':' !in a && ':' !in mark && ':' !in b
    ensures var h := a + mark + b; IsQuotedPrintable(h) && IsVisible(h) && ':' !in h
  {
    var upper := Upper(mark);
    UpperAppend(a + mark, b);
    UpperAppend(a, mark);
    OccursBetween(upper, Upper(a), Upper(b));
  }

  lemma OccursBetween(t: string, a: string, b: string)
    ensures Occurs(t, a + t + b)
  {
    assert (a + t + b)[|a|..|a| + |t|] == t;
    assert OccursAt(t, a + t + b, |a|);
  }

  lemma {:induction false} AsciiLength(s: string)
    requires forall i | 0 <= i < |s| :: s[i] < '\U{80}'
    ensures OctetLength(s) == |s|
  {
    if s != "" {
      AsciiLength(s[..|s| - 1]);
    }
  }
}
