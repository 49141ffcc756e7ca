/**
 Lines that other programs fold (backend/app/importers/vcard.py, `_unfold_lines`): which physical
 lines are read as one, and what is left out between them.
 */
module VcardUnfolding {
  import opened Text
  import opened VcardFold
  import opened VcardSurvival

  lemma TwoPhysical(a: string, b: string)
    requires NoBreaks(a) && NoBreaks(b)
    ensures PhysicalLines(a + "\r\n" + b) == [a, b]
  {
    PhysicalAppend(a, b);
    PhysicalAppend(b, "");
  }

  lemma UnfoldOne(lines: seq<string>, soft: bool, b: string)
    requires soft ==> lines != []
    ensures UnfoldFrom(lines, soft, [b]) == if IsSkipped(lines, soft, b) then lines else Take(lines, soft, b)
  {
    var none: seq<string> := [b][1..];
    assert none == [];
  }

  /** The first line begins something, whatever follows. */
  lemma UnfoldFirst(a: string, more: seq<string>)
    requires a != "" && !IsSpace(a[0])
    ensures UnfoldFrom([], false, [a] + more) == UnfoldFrom([a], SoftBreak(a), more)
  {
    StripKeepsFirst(a);
    FirstIsTaken(a);
    assert ([a] + more)[0] == a && ([a] + more)[1..] == more;
  }

  lemma FirstIsTaken(a: string)
    requires Strip(a) != ""
    ensures !IsSkipped([], false, a) && Take([], false, a) == [a]
  {
  }

  lemma TrimmedTwo(a: string, b: string)
    requires Strip(a) != "" && Strip(b) != ""
    ensures Trimmed([a, b]) == [Strip(a), Strip(b)]
  {
    assert [a, b][1..] == [b];
    TrimmedOne(b);
  }

  lemma ReadTwo(a: string, b: string)
    requires NoBreaks(a) && NoBreaks(b) && a != "" && !IsSpace(a[0])
    ensures Unfolded(a + "\r\n" + b)
         == Trimmed(if IsSkipped([a], SoftBreak(a), b) then [a] else Take([a], SoftBreak(a), b))
  {
    TwoPhysical(a, b);
    UnfoldFirst(a, [b]);
    assert [a] + [b] == [a, b];
    UnfoldOne([a], SoftBreak(a), b);
  }

  /** A line that begins with a blank or a tab goes on with the one before, without that character. */
  lemma ContinuationIsJoined(line: string, blank: char, more: string)
    requires line != "" && !IsSpace(line[0]) && !SoftBreak(line) && (blank == ' ' || blank == '\t')
    requires NoBreaks(line) && NoBreaks(more)
    ensures Unfolded(line + "\r\n" + ([blank] + more)) == [Strip(line + more)]
  {
    ReadTwo(line, [blank] + more);
    ContinuationIsTaken(line, blank, more);
    StripKeepsFirst(line + more);
    TrimmedOne(line + more);
  }

  lemma ContinuationIsTaken(line: string, blank: char, more: string)
    requires blank == ' ' || blank == '\t'
    ensures !IsSkipped([line], false, [blank] + more) && Take([line], false, [blank] + more) == [line + more]
  {
    assert ([blank] + more)[1..] == more;
  }

  /** Any other line is a new one. */
  lemma NextLineIsNew(line: string, more: string)
    requires line != "" && !IsSpace(line[0]) && !SoftBreak(line) && more != "" && !IsSpace(more[0])
    requires NoBreaks(line) && NoBreaks(more)
    ensures Unfolded(line + "\r\n" + more) == [Strip(line), Strip(more)]
  {
    ReadTwo(line, more);
    StripKeepsFirst(line);
    StripKeepsFirst(more);
    assert Take([line], false, more) == [line, more];
    TrimmedTwo(line, more);
  }

  /** An empty line between two is left out. */
  lemma EmptyLineIsSkipped(line: string, more: string)
    requires line != "" && !IsSpace(line[0]) && !SoftBreak(line) && more != "" && !IsSpace(more[0])
    requires NoBreaks(line) && NoBreaks(more)
    ensures Unfolded(line + "\r\n" + ("" + "\r\n" + more)) == Unfolded(line + "\r\n" + more)
  {
    PhysicalAppend(line, "" + "\r\n" + more);
    PhysicalAppend("", more);
    PhysicalAppend(line, more);
    var rest := PhysicalLines(more);
    UnfoldFirst(line, [""] + rest);
    UnfoldFirst(line, rest);
    SkipsEmpty([line], rest);
  }

  lemma SkipsEmpty(lines: seq<string>, rest: seq<string>)
    ensures UnfoldFrom(lines, false, [""] + rest) == UnfoldFrom(lines, false, rest)
  {
    assert ([""] + rest)[0] == "" && ([""] + rest)[1..] == rest;
  }

  // ---- Soft breaks ----

  lemma SoftBreakOf(h: string, a: string)
    requires h != "" && ':' !in h && IsQuotedPrintable(h)
    ensures SoftBreak(h + ":" + a + "=")
    ensures WithoutLast(h + ":" + a + "=") == h + ":" + a
  {
    var line := h + ":" + a + "=";
    BeforeFirst(h, a + "=", ':');
    assert line == h + [':'] + (a + "=");
    EqualsIsLast(h + ":" + a);
  }

  lemma EqualsIsLast(s: string)
    ensures RStrip(s + "=") == s + "=" && EndsWithEquals(s + "=") && WithoutLast(s + "=") == s
  {
    var all := s + "=";
    assert all[|all| - 1] == '=' && all[..|all| - 1] == s;
  }

  /** A quoted-printable value goes on behind the equals sign with the first character of the next line. */
  lemma SoftBreakIsRejoined(h: string, a: string, b: string)
    requires h != "" && !IsSpace(h[0]) && ':' !in h && IsQuotedPrintable(h)
    requires NoBreaks(h) && NoBreaks(a) && NoBreaks(b)
    ensures Unfolded(h + ":" + a + "=" + "\r\n" + b) == [Strip(h + ":" + a + b)]
  {
    var line, whole := h + ":" + a + "=", h + ":" + a + b;
    SoftBreakOf(h, a);
    ReadTwo(line, b);
    assert Take([line], true, b) == [whole];
    assert whole[0] == h[0];
    StripKeepsFirst(whole);
    TrimmedOne(whole);
  }
}
