/**
 Whole files of folded lines (backend/app/importers/vcard.py, `_unfold_lines`): each line that
 reads as itself alone does so in a file, and no line that is read holds a carriage return. Lines
 that begin with a blank are what joins lines, and no property begins with one.
 */
module VcardLines {
  import opened Text
  import opened VcardFold

  // ---- A whole file ----

  function FoldedTexts(lines: seq<string>): (r: seq<string>)
    ensures |r| == |lines|
    ensures forall i | 0 <= i < |lines| :: r[i] == Join(Folded(lines[i]), "\r\n")
  {
    seq(|lines|, i requires 0 <= i < |lines| => Join(Folded(lines[i]), "\r\n"))
  }

  /** `"\r\n".join(_fold_line(line) for line in lines) + "\r\n"` */
  function Written(lines: seq<string>): string {
    Join(FoldedTexts(lines), "\r\n") + "\r\n"
  }

  /** All physical lines, one logical line after the other. */
  function Physical(lines: seq<string>): seq<string> {
    if lines == [] then [] else Folded(lines[0]) + Physical(lines[1..])
  }

  /** A line that reads as itself wherever it stands. */
  predicate IsReadable(line: string) {
    line != "" && !IsSpace(line[0]) && NoBreaks(line) && CutsCleanly(line) && !SoftBreak(line)
  }

  ghost predicate AreReadable(lines: seq<string>) {
    forall i | 0 <= i < |lines| :: IsReadable(lines[i])
  }

  lemma {:induction false} PhysicalOfWritten(lines: seq<string>, rest: string)
    requires lines != [] && AreReadable(lines)
    ensures PhysicalLines(Written(lines) + rest) == Physical(lines) + PhysicalLines(rest)
  {
    var line, others := lines[0], lines[1..];
    FoldedNoBreaks(line);
    if others == [] {
      PhysicalJoined(Folded(line), rest);
      WrittenOne(lines);
    } else {
      PhysicalOfWritten(others, rest);
      PhysicalJoined(Folded(line), Written(others) + rest);
      WrittenCons(lines, rest);
      SeqsRegroup(Folded(line), Physical(others), PhysicalLines(rest));
    }
  }

  lemma WrittenOne(lines: seq<string>)
    requires |lines| == 1
    ensures Written(lines) == Join(Folded(lines[0]), "\r\n") + "\r\n" && Physical(lines) == Folded(lines[0])
  {
    assert Physical(lines) == Folded(lines[0]) + [];
  }

  lemma WrittenCons(lines: seq<string>, rest: string)
    requires |lines| > 1
    ensures Written(lines) + rest == Join(Folded(lines[0]), "\r\n") + "\r\n" + (Written(lines[1..]) + rest)
  {
    assert FoldedTexts(lines)[1..] == FoldedTexts(lines[1..]);
  }

  lemma {:induction false} PhysicalAppendLines(a: seq<string>, b: seq<string>)
    ensures Physical(a + b) == Physical(a) + Physical(b)
  {
    if a == [] {
      assert a + b == b;
    } else {
      assert (a + b)[1..] == a[1..] + b;
      PhysicalAppendLines(a[1..], b);
      assert Folded(a[0]) + (Physical(a[1..]) + Physical(b)) == Physical(a) + Physical(b);
    }
  }

  lemma {:induction false} UnfoldPhysical(before: seq<string>, lines: seq<string>, more: seq<string>)
    requires AreReadable(lines)
    ensures UnfoldFrom(before, false, Physical(lines) + more) == UnfoldFrom(before + lines, false, more)
    decreases |lines|
  {
    if lines == [] {
      assert Physical(lines) + more == more && before + lines == before;
    } else {
      UnfoldReadable(before, lines, more);
      UnfoldPhysical(before + lines[..1], lines[1..], more);
      HeadMoves(before, lines);
    }
  }

  lemma HeadMoves(before: seq<string>, lines: seq<string>)
    requires lines != []
    ensures before + lines[..1] + lines[1..] == before + lines
  {
  }

  lemma UnfoldReadable(before: seq<string>, lines: seq<string>, more: seq<string>)
    requires lines != [] && IsReadable(lines[0])
    ensures UnfoldFrom(before, false, Physical(lines) + more)
         == UnfoldFrom(before + lines[..1], false, Physical(lines[1..]) + more)
  {
    var tail := Physical(lines[1..]) + more;
    assert Physical(lines) + more == Folded(lines[0]) + tail;
    UnfoldFolded(before, lines[0], tail);
    assert lines[..1] == [lines[0]];
  }

  /** One more card in front of a file. */
  lemma PhysicalOfMore(lines: seq<string>, others: seq<string>, rest: string)
    requires lines != [] && AreReadable(lines) && PhysicalLines(rest) == Physical(others) + [""]
    ensures PhysicalLines(Written(lines) + rest) == Physical(lines + others) + [""]
  {
    PhysicalOfWritten(lines, rest);
    PhysicalAppendLines(lines, others);
    assert Physical(lines) + (Physical(others) + [""]) == Physical(lines + others) + [""];
  }

  /** Reading a file of readable lines gives those lines, trimmed. */
  lemma PhysicalUnfolds(lines: seq<string>)
    requires AreReadable(lines)
    ensures Trimmed(UnfoldFrom([], false, Physical(lines) + [""])) == Trimmed(lines)
  {
    UnfoldPhysical([], lines, [""]);
    assert [] + lines == lines && [""][1..] == [];
  }

  // ---- What a carriage return does ----

  lemma {:induction false} SplitOnKeepsOut(s: string, d: char, c: char)
    requires c !in s
    ensures forall p | p in SplitOn(s, d) :: c !in p
  {
    if s != "" {
      SplitOnKeepsOut(s[1..], d, c);
    }
  }

  lemma {:induction false} ReplaceCharRemoves(s: string, c: char, r: string)
    requires c !in r
    ensures c !in ReplaceChar(s, c, r)
  {
    if s != "" {
      ReplaceCharRemoves(s[1..], c, r);
    }
  }

  lemma {:induction false} UnfoldFromKeepsOut(lines: seq<string>, soft: bool, raw: seq<string>, c: char)
    requires soft ==> lines != []
    requires forall p | p in lines :: c !in p
    requires forall p | p in raw :: c !in p
    ensures forall p | p in UnfoldFrom(lines, soft, raw) :: c !in p
    decreases |raw|
  {
    if raw != [] {
      assert raw[0] in raw && forall p | p in raw[1..] :: p in raw;
      if IsSkipped(lines, soft, raw[0]) {
        UnfoldFromKeepsOut(lines, false, raw[1..], c);
      } else {
        var next := Take(lines, soft, raw[0]);
        forall p | p in next ensures c !in p {
          if lines != [] {
            var last := lines[|lines| - 1];
            assert last in lines;
            RStripIs(last);
            assert forall q | q in lines[..|lines| - 1] :: q in lines;
          }
        }
        UnfoldFromKeepsOut(next, SoftBreak(next[|next| - 1]), raw[1..], c);
      }
    }
  }

  lemma {:induction false} TrimmedKeepsOut(lines: seq<string>, c: char)
    requires forall p | p in lines :: c !in p
    ensures forall p | p in Trimmed(lines) :: c !in p
  {
    if lines != [] {
      assert lines[0] in lines && forall p | p in lines[1..] :: p in lines;
      TrimmedKeepsOut(lines[1..], c);
      LStripIs(lines[0]);
      RStripIs(LStrip(lines[0]));
    }
  }

  /** Whatever was written, nothing that is read back holds a carriage return. */
  lemma NoCarriageReturnIsRead(text: string)
    ensures forall line | line in Unfolded(text) :: '\r' !in line
  {
    var s := ReplaceCrLf(text, "\n");
    ReplaceCharRemoves(s, '\r', "\n");
    SplitOnKeepsOut(ReplaceChar(s, '\r', "\n"), '\n', '\r');
    UnfoldFromKeepsOut([], false, PhysicalLines(text), '\r');
    TrimmedKeepsOut(UnfoldFrom([], false, PhysicalLines(text)), '\r');
  }
}
