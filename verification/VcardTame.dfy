/**
 Lone carriage returns that do no harm (backend/app/importers/vcard.py, `_fold_line` and
 `_unfold_lines`): if neither a colon nor an equals sign follows one in a value, the property
 keeps its line, and what comes loose holds no property. Folding may cut anywhere meanwhile, so
 the physical lines are followed one by one: continuations first, then lines without a mark.
 */
module VcardTame {
  import opened Text
  import opened VcardFold
  import opened VcardSurvival
  import opened VcardLines
  import opened VcardCard
  import opened VcardRoundTrip

  predicate NoMark(s: string) { ':' !in s && '=' !in s }

  /** Behind a carriage return stands neither a colon nor an equals sign. */
  predicate IsHarmless(value: string) {
    forall i, j | 0 <= i < j < |value| && value[i] == '\r' :: value[j] != ':' && value[j] != '='
  }

  // ---- The physical lines of a text with carriage returns ----

  lemma {:induction false} SplitOnAnywhere(s: string, t: string, d: char)
    ensures SplitOn(s + [d] + t, d) == SplitOn(s, d) + SplitOn(t, d)
  {
    var all := s + [d] + t;
    if s == "" {
      assert all[1..] == t && SplitOn(s, d) == [""];
    } else {
      assert all[1..] == s[1..] + [d] + t;
      SplitOnAnywhere(s[1..], t, d);
    }
  }

  /** The lines of each part, one part after the other. */
  function Broken(parts: seq<string>): seq<string> {
    if parts == [] then [] else PhysicalLines(parts[0]) + Broken(parts[1..])
  }

  lemma PartThenRest(p: string, rest: string)
    requires '\n' !in p
    ensures PhysicalLines(p + "\r\n" + rest) == PhysicalLines(p) + PhysicalLines(rest)
    ensures PhysicalLines(p) == SplitOn(ReplaceChar(p, '\r', "\n"), '\n')
  {
    ReplaceCrLfPlain(p, rest);
    ReplaceCrLfAbsent(p);
    var tail := ReplaceCrLf(rest, "\n");
    assert p + "\r\n" + rest == p + ("\r\n" + rest) && p + ("\n" + tail) == p + "\n" + tail;
    ReplaceCharAppend(p + "\n", tail, '\r', "\n");
    ReplaceCharAppend(p, "\n", '\r', "\n");
    ReplaceCharAbsent("\n", '\r', "\n");
    SplitOnAnywhere(ReplaceChar(p, '\r', "\n"), ReplaceChar(tail, '\r', "\n"), '\n');
  }

  lemma {:induction false} PartsThenRest(parts: seq<string>, rest: string)
    requires parts != [] && forall p | p in parts :: '\n' !in p
    ensures PhysicalLines(Join(parts, "\r\n") + "\r\n" + rest) == Broken(parts) + PhysicalLines(rest)
  {
    if |parts| == 1 {
      PartThenRest(parts[0], rest);
      assert Broken(parts) == PhysicalLines(parts[0]) + [];
    } else {
      PartsThenRest(parts[1..], rest);
      var tail := Join(parts[1..], "\r\n") + "\r\n" + rest;
      PartThenRest(parts[0], tail);
      assert Join(parts, "\r\n") + "\r\n" + rest == parts[0] + "\r\n" + tail;
      SeqsRegroup(PhysicalLines(parts[0]), Broken(parts[1..]), PhysicalLines(rest));
    }
  }

  lemma {:induction false} BrokenPlain(parts: seq<string>)
    requires forall p | p in parts :: NoBreaks(p)
    ensures Broken(parts) == parts
  {
    if parts != [] {
      PhysicalAppend(parts[0], "");
      BrokenPlain(parts[1..]);
    }
  }

  lemma {:induction false} SplitOnDrops(s: string, d: char)
    ensures forall p | p in SplitOn(s, d) :: d !in p
  {
    if s != "" {
      SplitOnDrops(s[1..], d);
    }
  }

  lemma {:induction false} ReplaceKeepsOut(s: string, c: char)
    requires c !in s && c != '\n'
    ensures c !in ReplaceChar(s, '\r', "\n")
  {
    if s != "" {
      ReplaceKeepsOut(s[1..], c);
    }
  }

  /** The lines of a text hold no line break; without a mark in the text, none either. */
  lemma LinesAreClean(p: string)
    requires '\n' !in p
    ensures forall l | l in PhysicalLines(p) :: NoBreaks(l) && (NoMark(p) ==> NoMark(l))
  {
    var s := ReplaceChar(p, '\r', "\n");
    PartThenRest(p, "");
    SplitOnDrops(s, '\n');
    ReplaceCharRemoves(p, '\r', "\n");
    SplitOnKeepsOut(s, '\n', '\r');
    if NoMark(p) {
      ReplaceKeepsOut(p, ':');
      ReplaceKeepsOut(p, '=');
      SplitOnKeepsOut(s, '\n', ':');
      SplitOnKeepsOut(s, '\n', '=');
    }
  }

  /** What stands before the first carriage return stays in front of the first line. */
  lemma FrontStays(h: string, v: string)
    requires NoBreaks(h) && '\n' !in v
    ensures PhysicalLines(h + v) == [h + PhysicalLines(v)[0]] + PhysicalLines(v)[1..]
  {
    PartThenRest(h + v, "");
    PartThenRest(v, "");
    ReplaceCharAppend(h, v, '\r', "\n");
    ReplaceCharAbsent(h, '\r', "\n");
    SplitFront(h, ReplaceChar(v, '\r', "\n"), '\n');
  }

  /** Of a harmless text only the first line can hold a mark. */
  lemma {:induction false} LaterLinesAreUnmarked(p: string)
    requires '\n' !in p && IsHarmless(p)
    ensures forall i | 1 <= i < |PhysicalLines(p)| :: NoMark(PhysicalLines(p)[i])
    ensures '\r' !in p ==> PhysicalLines(p) == [p]
    decreases |p|
  {
    if p == "" {
      PhysicalAppend("", "");
    } else {
      var c, rest := p[..1], p[1..];
      assert p == c + rest;
      TailIsHarmless(p);
      if p[0] == '\r' {
        LinesAreClean(rest);
        PartThenRest(p, "");
        PartThenRest(rest, "");
        assert NoMark(rest);
      } else {
        LaterLinesAreUnmarked(rest);
        FrontStays(c, rest);
      }
    }
  }

  lemma TailIsHarmless(p: string)
    requires p != "" && IsHarmless(p)
    ensures IsHarmless(p[1..]) && (p[0] == '\r' ==> NoMark(p[1..]))
  {
    forall i, j | 0 <= i < j < |p[1..]| && p[1..][i] == '\r' ensures p[1..][j] != ':' && p[1..][j] != '=' {
      assert p[i + 1] == '\r' && p[j + 1] == p[1..][j];
    }
    if p[0] == '\r' {
      forall j | 0 <= j < |p[1..]| ensures p[1..][j] != ':' && p[1..][j] != '=' {
        assert p[0] == '\r' && p[j + 1] == p[1..][j];
      }
    }
  }

  // ---- The physical lines of one logical line ----

  /** Continuations, and from some place on only lines without a mark; if `free` is over, from the start. */
  ghost predicate AreTame(raw: seq<string>, free: bool) {
    raw == [] ||
      (NoBreaks(raw[0]) &&
        ((free && raw[0] != "" && raw[0][0] == ' ' && AreTame(raw[1..], true))
         || (NoMark(raw[0]) && AreTame(raw[1..], false))))
  }

  lemma {:induction false} TameInFront(lines: seq<string>, raw: seq<string>)
    requires forall l | l in lines :: NoBreaks(l) && NoMark(l)
    requires AreTame(raw, false)
    ensures AreTame(lines + raw, false)
  {
    if lines == [] {
      assert lines + raw == raw;
    } else {
      assert forall l | l in lines[1..] :: l in lines;
      TameInFront(lines[1..], raw);
      assert (lines + raw)[1..] == lines[1..] + raw && (lines + raw)[0] == lines[0];
      assert lines[0] in lines;
    }
  }

  lemma HarmlessParts(a: string, b: string)
    requires IsHarmless(a + b)
    ensures IsHarmless(a) && IsHarmless(b) && ('\r' in a ==> NoMark(b))
  {
    forall i, j | 0 <= i < j < |a| && a[i] == '\r' ensures a[j] != ':' && a[j] != '=' {
      assert (a + b)[i] == a[i] && (a + b)[j] == a[j];
    }
    forall i, j | 0 <= i < j < |b| && b[i] == '\r' ensures b[j] != ':' && b[j] != '=' {
      assert (a + b)[|a| + i] == b[i] && (a + b)[|a| + j] == b[j];
    }
    if k :| 0 <= k < |a| && a[k] == '\r' {
      assert (a + b)[k] == '\r';
      forall j | 0 <= j < |b| ensures b[j] != ':' && b[j] != '=' {
        assert (a + b)[|a| + j] == b[j];
      }
    }
  }

  predicate IsContinuation(p: string) { p != "" && p[0] == ' ' && '\n' !in p }

  lemma {:induction false} ConcatNoMark(parts: seq<string>)
    requires NoMark(Concat(parts))
    ensures forall p | p in parts :: NoMark(p)
  {
    if parts != [] {
      ConcatNoMark(parts[1..]);
    }
  }

  lemma {:induction false} BrokenIsTame(parts: seq<string>, free: bool)
    requires forall p | p in parts :: IsContinuation(p)
    requires if free then IsHarmless(Concat(parts)) else NoMark(Concat(parts))
    ensures AreTame(Broken(parts), free)
    decreases |parts|
  {
    if parts != [] {
      var p, rest := parts[0], parts[1..];
      assert p in parts && forall q | q in rest :: q in parts;
      LinesAreClean(p);
      if free {
        HarmlessParts(p, Concat(rest));
        BrokenIsTame(rest, '\r' !in p);
        LaterLinesAreUnmarked(p);
        if '\r' in p {
          ContinuationFirst(p);
          LastFree(PhysicalLines(p)[0], PhysicalLines(p)[1..], Broken(rest));
          assert [PhysicalLines(p)[0]] + PhysicalLines(p)[1..] == PhysicalLines(p);
        } else {
          OneMoreFree(p, Broken(rest));
        }
      } else {
        BrokenIsTame(rest, false);
        TameInFront(PhysicalLines(p), Broken(rest));
      }
    }
  }

  /** A continuation that holds a carriage return ends the freedom. */
  lemma LastFree(line: string, others: seq<string>, raw: seq<string>)
    requires line != "" && line[0] == ' ' && NoBreaks(line) && AreTame(raw, false)
    requires forall l | l in others :: NoBreaks(l) && NoMark(l)
    ensures AreTame([line] + others + raw, true)
  {
    TameInFront(others, raw);
    TameStaysTame(others + raw);
    OneMoreFree(line, others + raw);
    SeqsRegroup([line], others, raw);
  }

  lemma ContinuationFirst(p: string)
    requires IsContinuation(p)
    ensures PhysicalLines(p)[0] != "" && PhysicalLines(p)[0][0] == ' '
  {
    FrontStays(p[..1], p[1..]);
    assert p[..1] + p[1..] == p;
  }

  lemma OneMoreFree(line: string, raw: seq<string>)
    requires line != "" && line[0] == ' ' && NoBreaks(line) && AreTame(raw, true)
    ensures AreTame([line] + raw, true)
  {
    assert ([line] + raw)[1..] == raw;
  }

  lemma TameStaysTame(raw: seq<string>)
    requires AreTame(raw, false)
    ensures AreTame(raw, true)
  {
  }

  lemma BlankBetween(a: string, b: string)
    requires IsHarmless(a + b)
    ensures IsHarmless(a + " " + b)
  {
    HarmlessParts(a, b);
    var all := a + " " + b;
    forall i, j | 0 <= i < j < |all| && all[i] == '\r' ensures all[j] != ':' && all[j] != '=' {
      if j > |a| {
        assert all[j] == (a + b)[j - 1] && all[i] == (a + b)[if i < |a| then i else i - 1];
      } else if j < |a| {
        assert all[j] == (a + b)[j] && all[i] == (a + b)[i];
      }
    }
  }

  /** Cutting a harmless line leaves it harmless. */
  lemma {:induction false} FoldedIsHarmless(done: string, current: string, rest: string)
    requires IsHarmless(done + current + rest)
    ensures IsHarmless(done + Concat(FoldFrom(current, rest)))
    decreases |rest|
  {
    if rest == "" {
      if current == "" {
        assert done + Concat([]) == done + current + rest;
      } else {
        assert [current][1..] == [] && Concat([current]) == current + "" == current;
        assert done + current == done + current + rest;
      }
    } else {
      var c := rest[..1];
      assert done + current + rest == done + current + c + rest[1..] == (done + current) + (c + rest[1..]);
      if Overflows(current, rest[0]) {
        BlankBetween(done + current, c + rest[1..]);
        assert done + current + " " + (c + rest[1..]) == done + current + (" " + c) + rest[1..];
        FoldedIsHarmless(done + current, " " + c, rest[1..]);
        assert done + current + Concat(FoldFrom(" " + c, rest[1..])) == done + (current + Concat(FoldFrom(" " + c, rest[1..])));
      } else {
        assert done + current + c + rest[1..] == done + (current + c) + rest[1..];
        FoldedIsHarmless(done, current + c, rest[1..]);
      }
    }
  }

  lemma {:induction false} FoldFromKeepsOut(current: string, rest: string, p: string)
    requires '\n' !in current && '\n' !in rest && p in FoldFrom(current, rest)
    ensures '\n' !in p
    decreases |rest|
  {
    if rest != "" {
      if Overflows(current, rest[0]) {
        if p != current {
          FoldFromKeepsOut(" " + rest[..1], rest[1..], p);
        }
      } else {
        FoldFromKeepsOut(current + rest[..1], rest[1..], p);
      }
    }
  }

  lemma {:induction false} FoldTakes(a: string, b: string, v: string)
    requires OctetLength(a + b) <= LIMIT
    ensures FoldFrom(a, b + v) == FoldFrom(a + b, v)
    decreases |b|
  {
    if b == "" {
      assert b + v == v && a + b == a;
    } else {
      var c := b[..1];
      assert a + c + b[1..] == a + b && (b + v)[1..] == b[1..] + v && (b + v)[..1] == c && [b[0]] == c;
      OctetLengthAppend(a + c, b[1..]);
      FoldTakes(a + c, b[1..], v);
    }
  }

  lemma FoldedFromHead(h: string, v: string)
    requires OctetLength(h) <= LIMIT && IsHarmless(h + v)
    ensures FoldFrom("", h + v) == FoldFrom(h, v) && IsHarmless(Concat(FoldFrom(h, v)))
  {
    assert "" + h == h && "" + h + v == h + v;
    FoldTakes("", h, v);
    FoldedIsHarmless("", h, v);
    assert "" + Concat(FoldFrom(h, v)) == Concat(FoldFrom(h, v));
  }

  /** A folded line with a short head: the head stands in its first part. */
  lemma FoldedParts(h: string, v: string)
    requires h != "" && OctetLength(h) <= LIMIT && '\n' !in h && '\n' !in v && IsHarmless(h + v)
    ensures var parts := Folded(h + v);
            && parts != [] && h <= parts[0] && IsHarmless(Concat(parts)) && '\n' !in parts[0]
            && forall p | p in parts[1..] :: IsContinuation(p)
  {
    var parts := Folded(h + v);
    if OctetLength(h + v) <= LIMIT {
      assert Concat(parts) == h + v + "";
      assert h + v + "" == h + v;
    } else {
      FoldedFromHead(h, v);
      FoldFromStarts(h, v);
      assert parts[0] in parts;
      FoldFromKeepsOut(h, v, parts[0]);
      forall p | p in parts[1..] ensures IsContinuation(p) {
        var i :| 1 <= i < |parts| && parts[i] == p;
        FoldFromIsGreedy(h, v, i - 1);
        FoldFromKeepsOut(h, v, p);
      }
    }
  }

  /** The physical lines of a harmless logical line: the first begins with the head, the others are tame. */
  lemma LineBreaks(h: string, v: string) returns (s: string, tail: seq<string>)
    requires h != "" && OctetLength(h) <= LIMIT && NoBreaks(h) && '\n' !in v && IsHarmless(h + v)
    ensures Broken(Folded(h + v)) == [h + s] + tail && NoBreaks(s) && AreTame(tail, true)
  {
    FoldedParts(h, v);
    var parts := Folded(h + v);
    var first := parts[0][|h|..];
    assert parts[0] == h + first;
    HarmlessParts(parts[0], Concat(parts[1..]));
    s, tail := FirstPartBreaks(h, first, parts[1..]);
  }

  lemma FirstPartBreaks(h: string, first: string, rest: seq<string>) returns (s: string, tail: seq<string>)
    requires NoBreaks(h) && '\n' !in first && IsHarmless(h + first) && IsHarmless(Concat(rest))
    requires '\r' in h + first ==> NoMark(Concat(rest))
    requires forall p | p in rest :: IsContinuation(p)
    ensures PhysicalLines(h + first) + Broken(rest) == [h + s] + tail && NoBreaks(s) && AreTame(tail, true)
  {
    FrontStays(h, first);
    LinesAreClean(first);
    HarmlessParts(h, first);
    LaterLinesAreUnmarked(first);
    s := PhysicalLines(first)[0];
    var others := PhysicalLines(first)[1..];
    tail := others + Broken(rest);
    SeqsRegroup([h + s], others, Broken(rest));
    BrokenIsTame(rest, '\r' !in first);
    if '\r' in first {
      TameInFront(others, Broken(rest));
      TameStaysTame(tail);
    } else {
      assert tail == Broken(rest);
    }
  }

  // ---- Reading them ----

  /** Lines that the parser drops: no colon, and no soft break at the end. */
  ghost predicate AreJunk(lines: seq<string>) {
    forall l | l in lines :: NoBreaks(l) && NoMark(l)
  }

  predicate IsHeader(header: string) {
    header != "" && !IsSpace(header[0]) && ':' !in header && !IsQuotedPrintable(header)
  }

  lemma NoSoftBreak(header: string, s: string, line: string)
    requires ':' !in header && !IsQuotedPrintable(header)
    ensures !SoftBreak(header + ":" + s) && (NoMark(line) ==> !SoftBreak(line))
  {
    BeforeFirst(header, s, ':');
    assert header + ":" + s == header + [':'] + s;
    RStripIs(line);
  }

  /** The lines read so far of a property: its own, extended, and what came loose. */
  function Gathered(before: seq<string>, header: string, s: string, junk: seq<string>): seq<string> {
    before + [header + ":" + s] + junk
  }

  lemma GatheredMore(before: seq<string>, header: string, s: string, junk: seq<string>, raw: string) returns (s2: string, junk2: seq<string>)
    requires IsHeader(header) && NoBreaks(s) && AreJunk(junk) && NoBreaks(raw)
    requires NoMark(raw) || (junk == [] && raw != "" && raw[0] == ' ')
    requires !IsSkipped(Gathered(before, header, s, junk), false, raw)
    ensures Take(Gathered(before, header, s, junk), false, raw) == Gathered(before, header, s2, junk2)
    ensures NoBreaks(s2) && AreJunk(junk2) && (NoMark(raw) || junk2 == [])
  {
    var lines := Gathered(before, header, s, junk);
    s2, junk2 := s, junk;
    if raw != "" && (raw[0] == ' ' || raw[0] == '\t') {
      if junk == [] {
        s2 := s + raw[1..];
        assert header + ":" + s + raw[1..] == header + ":" + s2;
        assert lines[..|lines| - 1] == before;
      } else {
        var last := junk[|junk| - 1];
        assert last in junk;
        junk2 := junk[..|junk| - 1] + [last + raw[1..]];
        assert lines[..|lines| - 1] == before + [header + ":" + s] + junk[..|junk| - 1];
      }
    } else {
      junk2 := junk + [raw];
    }
  }

  lemma {:induction false} ReadTame(
      before: seq<string>, header: string, s: string, junk: seq<string>, raw: seq<string>, free: bool, more: seq<string>)
      returns (s2: string, junk2: seq<string>)
    requires IsHeader(header) && NoBreaks(s) && AreJunk(junk) && AreTame(raw, free) && (free ==> junk == [])
    ensures UnfoldFrom(Gathered(before, header, s, junk), false, raw + more)
         == UnfoldFrom(Gathered(before, header, s2, junk2), false, more)
    ensures NoBreaks(s2) && AreJunk(junk2)
    decreases |raw|
  {
    var lines := Gathered(before, header, s, junk);
    if raw == [] {
      s2, junk2 := s, junk;
      assert raw + more == more;
    } else {
      assert (raw + more)[0] == raw[0] && (raw + more)[1..] == raw[1..] + more;
      if IsSkipped(lines, false, raw[0]) {
        s2, junk2 := ReadTame(before, header, s, junk, raw[1..], false, more);
      } else {
        s2, junk2 := GatheredMore(before, header, s, junk, raw[0]);
        NotSoft(before, header, s2, junk2);
        s2, junk2 := ReadTame(before, header, s2, junk2, raw[1..], !NoMark(raw[0]) || !AreTame(raw[1..], false), more);
      }
    }
  }

  lemma NotSoft(before: seq<string>, header: string, s: string, junk: seq<string>)
    requires IsHeader(header) && AreJunk(junk)
    ensures var lines := Gathered(before, header, s, junk); lines != [] && !SoftBreak(lines[|lines| - 1])
  {
    NoSoftBreak(header, s, if junk == [] then "" else junk[|junk| - 1]);
    if junk != [] {
      assert junk[|junk| - 1] in junk;
    }
  }

  // ---- Whole properties ----

  /** A property as the printer writes it, whose value may hold harmless carriage returns. */
  predicate IsTame(p: Property) {
    IsPlainProperty(p.(value := "")) && '\n' !in p.value && IsHarmless(p.value)
  }

  ghost predicate AreAllTame(properties: seq<Property>) {
    forall i | 0 <= i < |properties| :: IsTame(properties[i])
  }

  /** What is read of a property: its value, and lines that came loose from it. */
  datatype Read = Read(value: string, junk: seq<string>)

  /** A value without a carriage return is read as it was written. */
  ghost predicate IsRead(p: Property, r: Read) {
    NoBreaks(r.value) && AreJunk(r.junk) && ('\r' !in p.value ==> r == Read(p.value, []))
  }

  ghost predicate AreRead(properties: seq<Property>, got: seq<Read>) {
    |got| == |properties| && forall i | 0 <= i < |properties| :: IsRead(properties[i], got[i])
  }

  function ReadLines(properties: seq<Property>, got: seq<Read>): seq<string>
    requires |got| == |properties|
  {
    if properties == [] then []
    else [properties[0].(value := got[0].value).Line()] + got[0].junk + ReadLines(properties[1..], got[1..])
  }

  lemma TameHeader(p: Property)
    requires IsPlainProperty(p.(value := ""))
    ensures var h := p.Header(); IsHeader(h) && NoBreaks(h + ":") && OctetLength(h + ":") <= LIMIT
  {
    var bare := p.(value := "");
    HeaderIsPlain(bare);
    assert bare.Header() == p.Header();
    OctetLengthAppend(p.Header(), ":");
    AsciiLength(":");
  }

  lemma HeadedIsHarmless(h: string, v: string)
    requires '\r' !in h && IsHarmless(v)
    ensures IsHarmless(h + v)
  {
    var all := h + v;
    assert forall k | 0 <= k < |h| :: all[k] == h[k];
    forall i, j | 0 <= i < j < |all| && all[i] == '\r' ensures all[j] != ':' && all[j] != '=' {
      assert i >= |h| ==> all[i] == v[i - |h|] && all[j] == v[j - |h|];
    }
  }

  lemma ReadPlain(before: seq<string>, p: Property, more: seq<string>)
    requires IsPlainProperty(p)
    ensures UnfoldFrom(before, false, Broken(Folded(p.Line())) + more) == UnfoldFrom(before + [p.Line()], false, more)
  {
    PlainLineIsReadable(p);
    FoldedNoBreaks(p.Line());
    BrokenPlain(Folded(p.Line()));
    UnfoldFolded(before, p.Line(), more);
  }

  lemma ReadProperty(before: seq<string>, p: Property, more: seq<string>) returns (r: Read)
    requires IsTame(p)
    ensures IsRead(p, r)
    ensures UnfoldFrom(before, false, Broken(Folded(p.Line())) + more)
         == UnfoldFrom(before + [p.(value := r.value).Line()] + r.junk, false, more)
  {
    if '\r' !in p.value {
      ReadPlain(before, p, more);
      r := Read(p.value, []);
      assert p.(value := p.value) == p && before + [p.Line()] + [] == before + [p.Line()];
    } else {
      var h := p.Header();
      TameHeader(p);
      HeadedIsHarmless(h + ":", p.value);
      var s, tail := LineBreaks(h + ":", p.value);
      assert p.Line() == h + ":" + p.value;
      var value, junk := ReadFirst(before, h, s, tail, more);
      r := Read(value, junk);
      assert p.(value := value).Line() == h + ":" + value;
    }
  }

  lemma ReadFirst(before: seq<string>, header: string, s: string, tail: seq<string>, more: seq<string>)
      returns (value: string, junk: seq<string>)
    requires IsHeader(header) && NoBreaks(s) && AreTame(tail, true)
    ensures UnfoldFrom(before, false, [header + ":" + s] + tail + more)
         == UnfoldFrom(before + [header + ":" + value] + junk, false, more)
    ensures NoBreaks(value) && AreJunk(junk)
  {
    var line := header + ":" + s;
    StripKeepsFirst(line);
    NoSoftBreak(header, s, "");
    SeqsRegroup([line], tail, more);
    assert ([line] + (tail + more))[1..] == tail + more;
    assert Take(before, false, line) == before + [line] == Gathered(before, header, s, []);
    value, junk := ReadTame(before, header, s, [], tail, true, more);
  }

  /** All physical lines of some properties. */
  function BrokenAll(properties: seq<Property>): seq<string> {
    if properties == [] then [] else Broken(Folded(properties[0].Line())) + BrokenAll(properties[1..])
  }

  lemma {:induction false} ReadAll(before: seq<string>, properties: seq<Property>, more: seq<string>) returns (got: seq<Read>)
    requires AreAllTame(properties)
    ensures AreRead(properties, got)
    ensures UnfoldFrom(before, false, BrokenAll(properties) + more)
         == UnfoldFrom(before + ReadLines(properties, got), false, more)
    decreases |properties|
  {
    if properties == [] {
      got := [];
      assert BrokenAll(properties) + more == more && before + ReadLines(properties, got) == before;
    } else {
      var p, rest := properties[0], properties[1..];
      SeqsRegroup(Broken(Folded(p.Line())), BrokenAll(rest), more);
      var r := ReadProperty(before, p, BrokenAll(rest) + more);
      var mine := [p.(value := r.value).Line()] + r.junk;
      SeqsRegroup(before, [p.(value := r.value).Line()], r.junk);
      var others := ReadAll(before + mine, rest, more);
      got := [r] + others;
      assert got[1..] == others;
      SeqsRegroup(before, mine, ReadLines(rest, others));
    }
  }

  lemma TamePartsFold(p: Property)
    requires IsTame(p)
    ensures Folded(p.Line()) != [] && forall part | part in Folded(p.Line()) :: '\n' !in part
  {
    var h := p.Header() + ":";
    TameHeader(p);
    HeadedIsHarmless(h, p.value);
    FoldedParts(h, p.value);
    assert p.Line() == h + p.value;
    forall part | part in Folded(p.Line()) ensures '\n' !in part {
      var i :| 0 <= i < |Folded(p.Line())| && Folded(p.Line())[i] == part;
      assert i > 0 ==> part in Folded(p.Line())[1..];
    }
  }

  lemma OneThenRest(p: Property, text: string)
    requires IsTame(p)
    ensures PhysicalLines(Join(Folded(p.Line()), "\r\n") + "\r\n" + text) == Broken(Folded(p.Line())) + PhysicalLines(text)
  {
    TamePartsFold(p);
    PartsThenRest(Folded(p.Line()), text);
  }

  lemma WrittenProperties(properties: seq<Property>, rest: string)
    requires properties != []
    ensures Written(Lines(properties)) + rest
         == Join(Folded(properties[0].Line()), "\r\n") + "\r\n"
            + if |properties| == 1 then rest else Written(Lines(properties[1..])) + rest
  {
    LinesTail(properties);
    if |properties| == 1 {
      WrittenOne(Lines(properties));
    } else {
      WrittenCons(Lines(properties), rest);
    }
  }

  lemma {:induction false} PhysicalOfProperties(properties: seq<Property>, rest: string)
    requires properties != [] && AreAllTame(properties)
    ensures PhysicalLines(Written(Lines(properties)) + rest) == BrokenAll(properties) + PhysicalLines(rest)
    decreases |properties|
  {
    WrittenProperties(properties, rest);
    if |properties| == 1 {
      OneThenRest(properties[0], rest);
      BrokenStep(properties, PhysicalLines(rest));
    } else {
      PhysicalOfProperties(properties[1..], rest);
      OneThenRest(properties[0], Written(Lines(properties[1..])) + rest);
      BrokenStep(properties, PhysicalLines(rest));
    }
  }

  lemma BrokenStep(properties: seq<Property>, more: seq<string>)
    requires properties != []
    ensures BrokenAll(properties) + more
         == Broken(Folded(properties[0].Line())) + if |properties| == 1 then more else BrokenAll(properties[1..]) + more
  {
    SeqsRegroup(Broken(Folded(properties[0].Line())), BrokenAll(properties[1..]), more);
    if |properties| == 1 {
      assert BrokenAll(properties[1..]) == [];
      assert Broken(Folded(properties[0].Line())) + [] == Broken(Folded(properties[0].Line()));
    }
  }
}
