/**
 The values of a vCard (backend/app/importers/vcard.py): escaping, unescaping and splitting, each
 loop beside the function it computes.
 */
module VcardText {
  import opened Text

  // ---- Escaping (section 3.4 of RFC 6350) ----

  function Escape(text: string): string {
    ReplaceChar(
      ReplaceChar(
        ReplaceChar(ReplaceCrLf(ReplaceChar(text, '\\', "\\\\"), "\\n"), '\n', "\\n"), ';', "\\;"), ',', "\\,")
  }

  function EscapeChar(c: char): string {
    if c == '\n' then "\\n" else if c == '\\' || c == ';' || c == ',' then ['\\', c] else [c]
  }

  function EscapeEach(text: string): string {
    if text == [] then [] else EscapeChar(text[0]) + EscapeEach(text[1..])
  }

  /** What an escaped text stands for: a CR LF pair is one line break. */
  function Meant(text: string): string {
    ReplaceCrLf(text, "\n")
  }

  /** What `Unescape` computes. */
  function Unescaped(text: string): string {
    if text == [] then []
    else if text[0] == '\\' && |text| > 1 && (text[1] == 'n' || text[1] == 'N') then "\n" + Unescaped(text[2..])
    else if text[0] == '\\' && |text| > 1 && (text[1] == ',' || text[1] == ';' || text[1] == '\\') then [text[1]] + Unescaped(text[2..])
    else [text[0]] + Unescaped(text[1..])
  }

  /** What the loop below takes at `i`, and how far it goes. */
  function Taken(text: string, i: nat): (string, nat)
    requires i < |text|
  {
    if text[i] == '\\' && i + 1 < |text| && (text[i + 1] == 'n' || text[i + 1] == 'N') then ("\n", i + 2)
    else if text[i] == '\\' && i + 1 < |text| && (text[i + 1] == ',' || text[i + 1] == ';' || text[i + 1] == '\\')
    then ([text[i + 1]], i + 2)
    else ([text[i]], i + 1)
  }

  /** One turn of the loop below, on the rest of the text. */
  lemma UnescapedAt(result: string, text: string, i: nat)
    requires i < |text|
    ensures var (taken, next) := Taken(text, i);
            result + Unescaped(text[i..]) == (result + taken) + Unescaped(text[next..])
  {
    assert text[i..][1..] == text[i + 1..];
    if i + 1 < |text| {
      assert text[i..][2..] == text[i + 2..];
    }
    var (taken, next) := Taken(text, i);
    assert Unescaped(text[i..]) == taken + Unescaped(text[next..]);
  }

  method Unescape(text: string) returns (result: string)
    ensures result == Unescaped(text)
  {
    result := "";
    var i := 0;
    while i < |text|
      invariant 0 <= i <= |text|
      invariant result + Unescaped(text[i..]) == Unescaped(text)
    {
      UnescapedAt(result, text, i);
      if text[i] == '\\' && i + 1 < |text| {
        var next := text[i + 1];
        if next == 'n' || next == 'N' {
          result := result + "\n";
          i := i + 2;
          continue;
        }
        if next == ',' || next == ';' || next == '\\' {
          result := result + [next];
          i := i + 2;
          continue;
        }
      }
      result := result + [text[i]];
      i := i + 1;
    }
  }

  /** The last three replacements of `Escape`. */
  function EscapeBreaks(text: string): string {
    ReplaceChar(ReplaceChar(ReplaceChar(text, '\n', "\\n"), ';', "\\;"), ',', "\\,")
  }

  lemma EscapeBreaksAppend(s: string, t: string)
    ensures EscapeBreaks(s + t) == EscapeBreaks(s) + EscapeBreaks(t)
  {
    ReplaceCharAppend(s, t, '\n', "\\n");
    var s1, t1 := ReplaceChar(s, '\n', "\\n"), ReplaceChar(t, '\n', "\\n");
    ReplaceCharAppend(s1, t1, ';', "\\;");
    ReplaceCharAppend(ReplaceChar(s1, ';', "\\;"), ReplaceChar(t1, ';', "\\;"), ',', "\\,");
  }

  /** `EscapeBreaks` on what the first two replacements make of one character. */
  lemma EscapeBreaksHead(s: string)
    requires |s| == 1 || s == "\\\\" || s == "\\n"
    ensures EscapeBreaks(s) == if |s| == 1 && s != "\\" then EscapeChar(s[0]) else s
  {
    if |s| == 1 {
      var c := s[0];
      assert s == [c] && s[1..] == [];
      if c == '\n' {
        assert ReplaceChar(s, '\n', "\\n") == "\\n";
        ReplaceCharAbsent("\\n", ';', "\\;");
        ReplaceCharAbsent("\\n", ',', "\\,");
      } else if c == ';' {
        assert ReplaceChar(s, ';', "\\;") == "\\;";
        ReplaceCharAbsent("\\;", ',', "\\,");
      }
    } else {
      ReplaceCharAbsent(s, '\n', "\\n");
      ReplaceCharAbsent(s, ';', "\\;");
      ReplaceCharAbsent(s, ',', "\\,");
    }
  }

  /** The five replacements, one after the other, escape each character on its own. */
  lemma {:induction false} EscapeIsPerCharacter(text: string)
    ensures Escape(text) == EscapeEach(Meant(text))
  {
    if text == [] {
    } else if |text| >= 2 && text[0] == '\r' && text[1] == '\n' {
      EscapeIsPerCharacter(text[2..]);
      EscapeOfPair(text);
      assert EscapeEach("\n" + Meant(text[2..])) == "\\n" + EscapeEach(Meant(text[2..]));
    } else {
      EscapeIsPerCharacter(text[1..]);
      EscapeOfOne(text);
      assert EscapeEach([text[0]] + Meant(text[1..])) == EscapeChar(text[0]) + EscapeEach(Meant(text[1..]));
    }
  }

  /** A CR LF pair in front becomes one escaped line break. */
  lemma EscapeOfPair(text: string)
    requires |text| >= 2 && text[0] == '\r' && text[1] == '\n'
    ensures Escape(text) == "\\n" + Escape(text[2..])
  {
    var rest := text[2..];
    var a := ReplaceChar(rest, '\\', "\\\\");
    assert text[1..][1..] == rest;
    assert ReplaceChar(text, '\\', "\\\\") == "\r\n" + a;
    assert ("\r\n" + a)[2..] == a;
    EscapeBreaksAppend("\\n", ReplaceCrLf(a, "\\n"));
    EscapeBreaksHead("\\n");
  }

  /** Any other character in front is escaped on its own. */
  lemma EscapeOfOne(text: string)
    requires text != [] && !(|text| >= 2 && text[0] == '\r' && text[1] == '\n')
    ensures Escape(text) == EscapeChar(text[0]) + Escape(text[1..])
  {
    var c, rest := text[0], text[1..];
    var a := ReplaceChar(rest, '\\', "\\\\");
    var head := if c == '\\' then "\\\\" else [c];
    assert ReplaceChar(text, '\\', "\\\\") == head + a;
    HeadIsNoPair(head, a);
    EscapeBreaksAppend(head, ReplaceCrLf(a, "\\n"));
    EscapeBreaksHead(head);
  }

  lemma HeadIsNoPair(head: string, a: string)
    requires head == "\\\\" || (|head| == 1 && !(head[0] == '\r' && a != [] && a[0] == '\n'))
    ensures ReplaceCrLf(head + a, "\\n") == head + ReplaceCrLf(a, "\\n")
  {
    if |head| == 1 {
      OneIsNoPair(head[0], a);
      assert head == [head[0]];
    } else {
      OneIsNoPair('\\', a);
      OneIsNoPair('\\', ['\\'] + a);
      assert head + a == ['\\'] + (['\\'] + a);
      assert head + ReplaceCrLf(a, "\\n") == ['\\'] + (['\\'] + ReplaceCrLf(a, "\\n"));
    }
  }

  lemma OneIsNoPair(c: char, a: string)
    requires !(c == '\r' && a != [] && a[0] == '\n')
    ensures ReplaceCrLf([c] + a, "\\n") == [c] + ReplaceCrLf(a, "\\n")
  {
    assert ([c] + a)[1..] == a;
  }

  lemma {:induction false} UnescapedEscapeEach(text: string)
    ensures Unescaped(EscapeEach(text)) == text
  {
    if text == [] {
    } else {
      UnescapedEscapeEach(text[1..]);
    }
  }

  /** Unescaping undoes escaping, for every text, up to CR LF pairs becoming line breaks. */
  lemma UnescapeUndoesEscape(text: string)
    ensures Unescaped(Escape(text)) == Meant(text)
  {
    EscapeIsPerCharacter(text);
    UnescapedEscapeEach(Meant(text));
  }

  lemma PairAtFrontOrLater(text: string)
    requires text != []
    ensures Occurs("\r\n", text) <==> (|text| > 1 && text[0] == '\r' && text[1] == '\n') || Occurs("\r\n", text[1..])
  {
    forall k | 0 <= k < |text| ensures OccursAt("\r\n", text, k + 1) <==> OccursAt("\r\n", text[1..], k) {
      if k + 3 <= |text| {
        assert text[1..][k..k + 2] == text[k + 1..k + 3];
      }
    }
    assert OccursAt("\r\n", text, 0) <==> (|text| > 1 && text[0] == '\r' && text[1] == '\n') by {
      if |text| > 1 {
        assert text[0..2] == [text[0], text[1]];
      }
    }
    if k :| 0 <= k <= |text| && OccursAt("\r\n", text, k) {
      assert k > 0 ==> OccursAt("\r\n", text[1..], k - 1);
    }
    if k :| 0 <= k <= |text| - 1 && OccursAt("\r\n", text[1..], k) {
      assert OccursAt("\r\n", text, k + 1);
    }
  }

  lemma {:induction false} MeantLength(text: string)
    ensures |Meant(text)| <= |text|
    ensures Occurs("\r\n", text) ==> |Meant(text)| < |text|
    ensures !Occurs("\r\n", text) ==> Meant(text) == text
  {
    if text == [] {
    } else {
      PairAtFrontOrLater(text);
      if |text| > 1 && text[0] == '\r' && text[1] == '\n' {
        MeantLength(text[2..]);
      } else {
        MeantLength(text[1..]);
      }
    }
  }

  lemma {:induction false} NoReturnIsMeant(text: string)
    requires '\r' !in text
    ensures Meant(text) == text
  {
    if text != "" {
      NoReturnIsMeant(text[1..]);
    }
  }

  /** It is the very text again exactly if the text holds no CR LF pair. */
  lemma EscapeRoundTripExactly(text: string)
    ensures Unescaped(Escape(text)) == text <==> !Occurs("\r\n", text)
  {
    UnescapeUndoesEscape(text);
    MeantLength(text);
  }

  /** What a backslash and the character behind it stand for, in any text: what is not an escape stays as it is. */
  lemma PairsAreRead(c: char, rest: string)
    ensures var pair := ['\\', c];
            if c == 'n' || c == 'N' then Unescaped(pair + rest) == "\n" + Unescaped(rest)
            else if c == ',' || c == ';' || c == '\\' then Unescaped(pair + rest) == [c] + Unescaped(rest)
            else Unescaped(pair + rest) == "\\" + Unescaped([c] + rest)
    ensures c != '\\' ==> Unescaped([c] + rest) == [c] + Unescaped(rest)
    ensures Unescaped("\\") == "\\"
  {
    var pair: string := ['\\', c];
    assert (pair + rest)[2..] == rest && (pair + rest)[1..] == [c] + rest && ([c] + rest)[1..] == rest;
    var none: string := "\\"[1..];
    assert none == "";
  }

  // ---- Splitting on an unescaped delimiter ----

  function Prepend(head: string, parts: seq<string>): seq<string>
    requires parts != []
  {
    [head + parts[0]] + parts[1..]
  }

  /** What `SplitUnescaped` computes: a backslash takes the next character with it. */
  function Pieces(text: string, delimiter: char): (parts: seq<string>)
    ensures parts != []
  {
    if text == [] then [""]
    else if text[0] == '\\' && |text| > 1 then Prepend(text[..2], Pieces(text[2..], delimiter))
    else if text[0] == delimiter then [""] + Pieces(text[1..], delimiter)
    else Prepend(text[..1], Pieces(text[1..], delimiter))
  }

  lemma PiecesAt(text: string, delimiter: char, i: nat)
    requires i < |text|
    ensures Pieces(text[i..], delimiter) ==
            if text[i] == '\\' && i + 1 < |text| then Prepend(text[i..i + 2], Pieces(text[i + 2..], delimiter))
            else if text[i] == delimiter then [""] + Pieces(text[i + 1..], delimiter)
            else Prepend([text[i]], Pieces(text[i + 1..], delimiter))
  {
    assert text[i..][1..] == text[i + 1..] && text[i..][..1] == [text[i]];
    if i + 1 < |text| {
      assert text[i..][2..] == text[i + 2..] && text[i..][..2] == text[i..i + 2];
    }
  }

  lemma PrependTwice(a: string, b: string, parts: seq<string>)
    requires parts != []
    ensures Prepend(a, Prepend(b, parts)) == Prepend(a + b, parts)
    ensures Prepend(a, [""] + parts) == [a] + parts
    ensures Prepend("", parts) == parts
  {
    assert a + (b + parts[0]) == a + b + parts[0];
    assert a + "" == a && "" + parts[0] == parts[0];
  }

  /** The loop below: finished parts, the part being read, and what the rest of the text splits into. */
  ghost function Gathered(parts: seq<string>, current: string, rest: seq<string>): seq<string>
    requires rest != []
  {
    parts + Prepend(current, rest)
  }

  lemma GatheredTakes(parts: seq<string>, current: string, head: string, rest: seq<string>)
    requires rest != []
    ensures Gathered(parts, current, Prepend(head, rest)) == Gathered(parts, current + head, rest)
  {
    PrependTwice(current, head, rest);
  }

  lemma GatheredCuts(parts: seq<string>, current: string, rest: seq<string>)
    requires rest != []
    ensures Gathered(parts, current, [""] + rest) == Gathered(parts + [current], "", rest)
    ensures Gathered(parts, current, [""]) == parts + [current]
  {
    PrependTwice(current, "", rest);
    assert current + "" == current;
  }

  method SplitUnescaped(text: string, delimiter: char) returns (parts: seq<string>)
    ensures parts == Pieces(text, delimiter)
  {
    parts := [];
    var current := "";
    var i := 0;
    PrependTwice("", "", Pieces(text, delimiter));
    assert text[0..] == text;
    while i < |text|
      invariant 0 <= i <= |text|
      invariant Gathered(parts, current, Pieces(text[i..], delimiter)) == Pieces(text, delimiter)
    {
      PiecesAt(text, delimiter, i);
      if text[i] == '\\' && i + 1 < |text| {
        GatheredTakes(parts, current, text[i..i + 2], Pieces(text[i + 2..], delimiter));
        current := current + text[i..i + 2];
        i := i + 2;
        continue;
      }
      if text[i] == delimiter {
        GatheredCuts(parts, current, Pieces(text[i + 1..], delimiter));
        parts := parts + [current];
        current := "";
        i := i + 1;
        continue;
      }
      GatheredTakes(parts, current, [text[i]], Pieces(text[i + 1..], delimiter));
      current := current + [text[i]];
      i := i + 1;
    }
    GatheredCuts(parts, current, [""]);
    parts := parts + [current];
  }

  lemma {:induction false} EscapedHasNoDelimiter(text: string, rest: string, delimiter: char)
    requires delimiter == ';' || delimiter == ','
    ensures Pieces(EscapeEach(text) + rest, delimiter) == Prepend(EscapeEach(text), Pieces(rest, delimiter))
  {
    if text == [] {
      assert EscapeEach(text) + rest == rest;
      PrependTwice("", "", Pieces(rest, delimiter));
    } else {
      EscapedHasNoDelimiter(text[1..], rest, delimiter);
      var head, tail := EscapeChar(text[0]), EscapeEach(text[1..]) + rest;
      assert EscapeEach(text) + rest == head + tail;
      PiecesOfEscapedChar(text[0], tail, delimiter);
      PrependTwice(head, EscapeEach(text[1..]), Pieces(rest, delimiter));
    }
  }

  lemma PiecesOfEscapedChar(c: char, rest: string, delimiter: char)
    requires delimiter == ';' || delimiter == ','
    ensures Pieces(EscapeChar(c) + rest, delimiter) == Prepend(EscapeChar(c), Pieces(rest, delimiter))
  {
    var head := EscapeChar(c);
    var all := head + rest;
    assert all[|head|..] == rest && all[..|head|] == head;
  }

  function EscapeAll(texts: seq<string>): (r: seq<string>)
    ensures |r| == |texts| && forall i | 0 <= i < |texts| :: r[i] == EscapeEach(texts[i])
  {
    seq(|texts|, i requires 0 <= i < |texts| => EscapeEach(texts[i]))
  }

  /** Splitting undoes joining escaped components: no separator inside one is ever mistaken. */
  lemma {:induction false} SplitUndoesJoin(texts: seq<string>, delimiter: char)
    requires texts != [] && (delimiter == ';' || delimiter == ',')
    ensures Pieces(Join(EscapeAll(texts), [delimiter]), delimiter) == EscapeAll(texts)
  {
    if |texts| == 1 {
      EscapedHasNoDelimiter(texts[0], "", delimiter);
      assert EscapeEach(texts[0]) + "" == EscapeEach(texts[0]);
    } else {
      SplitUndoesJoin(texts[1..], delimiter);
      FirstOfJoined(texts[0], Join(EscapeAll(texts[1..]), [delimiter]), delimiter);
      JoinedComesApart(texts, delimiter);
    }
  }

  lemma JoinedComesApart(texts: seq<string>, delimiter: char)
    requires |texts| > 1
    ensures EscapeAll(texts) == [EscapeEach(texts[0])] + EscapeAll(texts[1..])
    ensures Join(EscapeAll(texts), [delimiter]) == EscapeEach(texts[0]) + ([delimiter] + Join(EscapeAll(texts[1..]), [delimiter]))
  {
    assert EscapeAll(texts)[1..] == EscapeAll(texts[1..]);
  }

  lemma FirstOfJoined(text: string, joined: string, delimiter: char)
    requires delimiter == ';' || delimiter == ','
    ensures Pieces(EscapeEach(text) + ([delimiter] + joined), delimiter) == [EscapeEach(text)] + Pieces(joined, delimiter)
  {
    var tail := [delimiter] + joined;
    assert tail[1..] == joined;
    EscapedHasNoDelimiter(text, tail, delimiter);
    assert EscapeEach(text) + "" == EscapeEach(text);
  }
}
