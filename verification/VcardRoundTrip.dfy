/**
 Reading undoes writing: the parser of backend/app/importers/vcard.py, given what its printer
 wrote for any list of contacts, returns those contacts. This is the way from the text to its
 logical lines: what trimming does to an escaped text, which headers the printer writes, and
 that the folded lines of a whole file unfold to the lines of its properties.
 */
module VcardRoundTrip {
  import opened Options
  import opened Text
  import opened VcardText
  import opened VcardFold
  import opened VcardSurvival
  import opened VcardLines
  import opened VcardCard

  // ---- Trimming an escaped text ----

  /** Every carriage return is the first half of a CR LF pair. */
  predicate NoLoneCr(text: string) {
    forall i | 0 <= i < |text| && text[i] == '\r' :: i + 1 < |text| && text[i + 1] == '\n'
  }

  lemma {:induction false} LoneCrRemains(text: string)
    ensures NoLoneCr(text) <==> '\r' !in Meant(text)
  {
    if text == "" {
    } else {
      var pair := |text| > 1 && text[0] == '\r' && text[1] == '\n';
      var n := if pair then 2 else 1;
      var rest := text[n..];
      LoneCrRemains(rest);
      assert Meant(text) == (if pair then "\n" else [text[0]]) + Meant(rest);
      if NoLoneCr(text) {
        forall i | 0 <= i < |rest| && rest[i] == '\r' ensures i + 1 < |rest| && rest[i + 1] == '\n' {
          assert text[i + n] == '\r';
        }
      }
      if NoLoneCr(rest) && (pair || text[0] != '\r') {
        forall i | 0 <= i < |text| && text[i] == '\r' ensures i + 1 < |text| && text[i + 1] == '\n' {
          if i >= n { assert rest[i - n] == '\r'; }
        }
      }
    }
  }

  /** `text` without the trailing blanks that are not line breaks: those an escaped text loses by trimming. */
  function Cut(text: string): string {
    if text != "" && IsSpace(text[|text| - 1]) && text[|text| - 1] != '\n' then Cut(text[..|text| - 1]) else text
  }

  lemma {:induction false} EscapeEachAppend(s: string, t: string)
    ensures EscapeEach(s + t) == EscapeEach(s) + EscapeEach(t)
  {
    if s == "" {
      assert s + t == t;
    } else {
      assert (s + t)[1..] == s[1..] + t;
      EscapeEachAppend(s[1..], t);
    }
  }

  lemma EscapeEachLast(text: string)
    requires text != ""
    ensures EscapeEach(text) == EscapeEach(text[..|text| - 1]) + EscapeChar(text[|text| - 1])
  {
    var c := text[|text| - 1];
    EscapeEachAppend(text[..|text| - 1], [c]);
    assert text == text[..|text| - 1] + [c];
    EscapeEachOfOne(c);
  }

  lemma EscapeEachOfOne(c: char)
    ensures EscapeEach([c]) == EscapeChar(c)
  {
    assert [c][1..] == "";
  }

  /** Trimming an escaped text on the right trims the text, up to its line breaks. */
  lemma {:induction false} TrimEscaped(text: string)
    ensures RStrip(EscapeEach(text)) == EscapeEach(Cut(text))
  {
    if text == "" {
    } else {
      var init, c := text[..|text| - 1], text[|text| - 1];
      EscapeEachLast(text);
      var all := EscapeEach(text);
      if IsSpace(c) && c != '\n' {
        TrimEscaped(init);
        assert all[..|all| - 1] == EscapeEach(init);
      }
    }
  }

  lemma {:induction false} CutKeepsContent(text: string)
    ensures Strip(Cut(text)) == Strip(text)
    ensures Cut(text) <= text
  {
    if text != "" && IsSpace(text[|text| - 1]) && text[|text| - 1] != '\n' {
      CutKeepsContent(text[..|text| - 1]);
      StripDropsLast(text);
    }
  }

  lemma {:induction false} StripDropsLast(text: string)
    requires text != "" && IsSpace(text[|text| - 1])
    ensures Strip(text[..|text| - 1]) == Strip(text)
  {
    var init := text[..|text| - 1];
    if init == "" {
      assert text[1..] == "";
    } else if IsSpace(text[0]) {
      assert init[1..] == text[1..][..|text| - 2];
      StripDropsLast(text[1..]);
    } else {
      assert LStrip(text) == text && LStrip(init) == init;
    }
  }

  lemma {:induction false} MeantAppend(a: string, b: string)
    requires a == "" || b == "" || a[|a| - 1] != '\r' || b[0] != '\n'
    ensures Meant(a + b) == Meant(a) + Meant(b)
  {
    var all := a + b;
    if a == "" {
      assert all == b;
    } else if b == "" {
      assert all == a;
    } else if |a| > 1 && a[0] == '\r' && a[1] == '\n' {
      assert all[2..] == a[2..] + b;
      MeantAppend(a[2..], b);
    } else {
      assert all[1..] == a[1..] + b;
      MeantAppend(a[1..], b);
    }
  }

  lemma {:induction false} MeantBlanks(s: string)
    requires forall i | 0 <= i < |s| :: IsSpace(s[i])
    ensures forall i | 0 <= i < |Meant(s)| :: IsSpace(Meant(s)[i])
  {
    if s == "" {
    } else if |s| > 1 && s[0] == '\r' && s[1] == '\n' {
      MeantBlanks(s[2..]);
      assert Meant(s) == "\n" + Meant(s[2..]);
    } else {
      MeantBlanks(s[1..]);
      assert Meant(s) == [s[0]] + Meant(s[1..]);
    }
  }

  lemma MeantOfOne(c: char)
    ensures Meant([c]) == [c]
  {
    assert [c][1..] == "" && Meant("") == "" && [c] + "" == [c];
  }

  lemma {:induction false} LStripMeant(text: string)
    ensures LStrip(Meant(text)) == Meant(LStrip(text))
  {
    if text != "" && IsSpace(text[0]) {
      if |text| > 1 && text[0] == '\r' && text[1] == '\n' {
        assert text[1..][1..] == text[2..] && IsSpace(text[1..][0]);
        LStripMeant(text[2..]);
      } else {
        LStripMeant(text[1..]);
      }
    }
  }

  lemma RStripMeant(text: string)
    ensures RStrip(Meant(text)) == Meant(RStrip(text))
  {
    RStripIs(text);
    var r := RStrip(text);
    var w := text[|r|..];
    assert text == r + w;
    MeantAppend(r, w);
    forall i | 0 <= i < |w| ensures IsSpace(w[i]) { assert w[i] == text[|r| + i]; }
    MeantBlanks(w);
    if r != "" {
      var c := r[|r| - 1];
      assert r == r[..|r| - 1] + [c];
      MeantAppend(r[..|r| - 1], [c]);
      MeantOfOne(c);
    }
    RStripUnique(Meant(text), Meant(r));
  }

  /** It makes no difference whether a text is trimmed before its CR LF pairs become line breaks, or after. */
  lemma StripMeant(text: string)
    ensures Strip(Meant(text)) == Meant(Strip(text))
  {
    LStripMeant(text);
    RStripMeant(LStrip(text));
  }

  /** What a field is after the trip: trimmed, and a blank one is absent. */
  function Cleaned(text: Option<string>): Option<string> {
    if text.Some? then OrNone(Strip(Meant(text.value))) else None
  }

  lemma TextIsRead(text: string, decode: Decoder)
    ensures TextOf(RStrip(Escape(text)), None, decode) == Strip(Meant(text))
    ensures PartsOf(RStrip(Escape(text)), ';', None, decode)[0] == Strip(Meant(text))
  {
    var meant := Meant(text);
    EscapeIsPerCharacter(text);
    TrimEscaped(meant);
    CutKeepsContent(meant);
    UnescapedEscapeEach(Cut(meant));
    EscapedHasNoDelimiter(Cut(meant), "", ';');
    assert EscapeEach(Cut(meant)) + "" == EscapeEach(Cut(meant));
  }

  // ---- Headers ----

  predicate IsPlain(s: string) {
    forall i | 0 <= i < |s| :: ('A' <= s[i] <= 'Z' && s[i] != 'Q') || s[i] == '=' || s[i] == ','
  }

  /** A property as the printer writes it: a short header in capitals. */
  predicate IsPlainProperty(p: Property) {
    && IsPlain(p.name) && p.name != ""
    && (p.param.Some? ==> IsPlain(p.param.value))
    && |p.Header()| <= 30
    && NoBreaks(p.value)
  }

  function Params(p: Property): seq<string> {
    if p.param.Some? then [p.param.value] else []
  }

  lemma PlainIsUpper(s: string)
    requires IsPlain(s)
    ensures Upper(s) == s && !IsQuotedPrintable(s) && OctetLength(s) == |s|
  {
    UpperOfCapitals(s);
    AsciiLength(s);
    NoQ(s);
  }

  lemma NoQ(s: string)
    requires 'Q' !in s
    ensures !Occurs("QUOTED-PRINTABLE", s)
  {
    forall k | 0 <= k <= |s| ensures !OccursAt("QUOTED-PRINTABLE", s, k) {
      if k + 16 <= |s| {
        assert s[k..k + 16][0] == s[k];
      }
    }
  }

  lemma {:induction false} AfterLastAbsent(s: string, c: char)
    requires c !in s
    ensures AfterLast(s, c) == s
  {
    if s != "" {
      AfterLastAbsent(s[..|s| - 1], c);
    }
  }

  /** The parts of a header, put together and taken apart again. */
  lemma HeaderSplits(p: Property)
    requires IsPlainProperty(p)
    ensures SplitOn(p.Header(), ';') == [p.name] + Params(p)
  {
    match p.param
    case None =>
      SplitOnAppend(p.name, "", ';');
    case Some(param) =>
      SplitOnAppend(p.name, param, ';');
      SplitOnAppend(param, "", ';');
      assert p.Header() == p.name + [';'] + param;
  }

  lemma HeaderIsPlain(p: Property)
    requires IsPlainProperty(p)
    ensures var h := p.Header();
            && h != "" && !IsSpace(h[0]) && h[0] == p.name[0] && ':' !in h && NoBreaks(h)
            && Upper(h) == h && OctetLength(h) == |h| && !IsQuotedPrintable(h)
  {
    CapitalsArePlain(p.Header());
  }

  lemma CapitalsArePlain(h: string)
    requires forall i | 0 <= i < |h| :: ('A' <= h[i] <= 'Z' && h[i] != 'Q') || h[i] == '=' || h[i] == ',' || h[i] == ';'
    ensures Upper(h) == h && OctetLength(h) == |h| && !IsQuotedPrintable(h)
  {
    UpperOfCapitals(h);
    AsciiLength(h);
    NoQ(h);
  }

  // ---- From the text to the logical lines ----

  ghost predicate ArePlain(properties: seq<Property>) {
    forall i | 0 <= i < |properties| :: IsPlainProperty(properties[i])
  }

  lemma PlainLineIsReadable(p: Property)
    requires IsPlainProperty(p)
    ensures IsReadable(p.Line())
  {
    HeaderIsPlain(p);
    PlainLineCutsCleanly(p.Header(), p.value);
    assert p.Line()[0] == p.Header()[0];
  }

  /** What the parser sees of a property. */
  function Seen(p: Property): Property { p.(value := RStrip(p.value)) }

  function SeenAll(properties: seq<Property>): (r: seq<Property>)
    ensures |r| == |properties| && forall i | 0 <= i < |properties| :: r[i] == Seen(properties[i])
  {
    seq(|properties|, i requires 0 <= i < |properties| => Seen(properties[i]))
  }

  lemma RStripBehind(h: string, v: string)
    requires h != "" && !IsSpace(h[|h| - 1])
    ensures RStrip(h + v) == h + RStrip(v)
  {
    RStripIs(v);
    var kept := h + RStrip(v);
    assert h + v == kept + v[|RStrip(v)|..];
    forall i | |kept| <= i < |h + v| ensures IsSpace((h + v)[i]) {
      assert (h + v)[i] == v[i - |h|];
    }
    RStripUnique(h + v, kept);
  }

  lemma TrimmedLine(p: Property)
    requires IsPlainProperty(p)
    ensures Strip(p.Line()) == Seen(p).Line() && Strip(p.Line()) != ""
  {
    HeaderIsPlain(p);
    StripKeepsFirst(p.Line());
    RStripBehind(p.Header() + ":", p.value);
    assert Seen(p).Header() == p.Header();
  }

  lemma {:induction false} TrimmedLines(properties: seq<Property>)
    requires ArePlain(properties)
    ensures Trimmed(Lines(properties)) == Lines(SeenAll(properties))
  {
    if properties == [] {
    } else {
      TrimmedLine(properties[0]);
      TrimmedLines(properties[1..]);
      LinesTail(properties);
      LinesTail(SeenAll(properties));
      assert SeenAll(properties)[1..] == SeenAll(properties[1..]);
      HeadAndTail(Lines(SeenAll(properties)));
    }
  }

  lemma LinesTail(properties: seq<Property>)
    requires properties != []
    ensures Lines(properties)[1..] == Lines(properties[1..])
  {
  }

  lemma HeadAndTail(lines: seq<string>)
    requires lines != []
    ensures lines == [lines[0]] + lines[1..]
  {
  }

  function AllProperties(cards: seq<Card>): seq<Property>
    requires forall c | c in cards :: IsStorable(c)
  {
    if cards == [] then [] else Properties(cards[0]) + AllProperties(cards[1..])
  }

  lemma LinesAppend(a: seq<Property>, b: seq<Property>)
    ensures Lines(a + b) == Lines(a) + Lines(b)
  {
  }

  lemma {:induction false} PhysicalOfStream(cards: seq<Card>)
    requires forall c | c in cards :: IsStorable(c)
    requires AreReadable(Lines(AllProperties(cards)))
    ensures PhysicalLines(PrintedAll(cards)) == Physical(Lines(AllProperties(cards))) + [""]
  {
    if cards == [] {
      EmptyTextIsOneLine();
    } else {
      var mine, others := Lines(Properties(cards[0])), Lines(AllProperties(cards[1..]));
      LinesAppend(Properties(cards[0]), AllProperties(cards[1..]));
      ReadableParts(mine, others);
      PhysicalOfStream(cards[1..]);
      PhysicalOfMore(mine, others, PrintedAll(cards[1..]));
    }
  }

  lemma ReadableParts(a: seq<string>, b: seq<string>)
    requires AreReadable(a + b)
    ensures AreReadable(a) && AreReadable(b)
  {
    forall i | 0 <= i < |a| ensures IsReadable(a[i]) { assert a[i] == (a + b)[i]; }
    forall i | 0 <= i < |b| ensures IsReadable(b[i]) { assert b[i] == (a + b)[|a| + i]; }
  }

  lemma EmptyTextIsOneLine()
    ensures PhysicalLines("") == [""]
  {
  }

  /** Unfolding what was printed gives back the logical lines, each trimmed on the right. */
  lemma StreamUnfolds(cards: seq<Card>)
    requires forall c | c in cards :: IsStorable(c)
    requires ArePlain(AllProperties(cards))
    ensures Unfolded(PrintedAll(cards)) == Lines(SeenAll(AllProperties(cards)))
  {
    var all := AllProperties(cards);
    forall i | 0 <= i < |all| ensures IsReadable(Lines(all)[i]) {
      PlainLineIsReadable(all[i]);
    }
    PhysicalOfStream(cards);
    PhysicalUnfolds(Lines(all));
    TrimmedLines(all);
  }

  /** Plain properties are read as they were written, whether they make up a contact or not. */
  lemma PropertiesUnfold(properties: seq<Property>)
    requires properties != [] && ArePlain(properties)
    ensures Unfolded(Written(Lines(properties))) == Lines(SeenAll(properties))
  {
    var lines := Lines(properties);
    forall i | 0 <= i < |properties| ensures IsReadable(lines[i]) {
      PlainLineIsReadable(properties[i]);
    }
    PhysicalOfWritten(lines, "");
    EmptyTextIsOneLine();
    assert Written(lines) + "" == Written(lines);
    PhysicalUnfolds(lines);
    TrimmedLines(properties);
  }
}
