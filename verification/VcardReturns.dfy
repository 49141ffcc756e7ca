/**
 What a carriage return in a vCard file does (backend/app/importers/vcard.py): it ends the line
 like a CR LF, and no card that is read holds one. The line is followed through unescaping,
 splitting, the properties and the finished card; only decoding could bring one in.
 */
module VcardReturns {
  import opened Options
  import opened Text
  import opened VcardText
  import opened VcardFold
  import opened VcardLines
  import opened VcardCard

  // ---- A lone carriage return ends the line ----

  lemma {:induction false} LoneReturnIsReplaced(a: string, b: string)
    requires b != "" ==> b[0] != '\n'
    ensures ReplaceChar(ReplaceCrLf(a + "\r" + b, "\n"), '\r', "\n")
         == ReplaceChar(ReplaceCrLf(a + "\r\n" + b, "\n"), '\r', "\n")
  {
    if a == "" {
      assert "" + "\r" + b == "\r" + b && ("\r" + b)[1..] == b;
      assert "" + "\r\n" + b == "\r\n" + b && ("\r\n" + b)[2..] == b;
      OneReplaced('\r', ReplaceCrLf(b, "\n"));
      OneReplaced('\n', ReplaceCrLf(b, "\n"));
    } else if |a| > 1 && a[0] == '\r' && a[1] == '\n' {
      assert (a + "\r" + b)[2..] == a[2..] + "\r" + b && (a + "\r\n" + b)[2..] == a[2..] + "\r\n" + b;
      LoneReturnIsReplaced(a[2..], b);
      OneReplaced('\n', ReplaceCrLf(a[2..] + "\r" + b, "\n"));
      OneReplaced('\n', ReplaceCrLf(a[2..] + "\r\n" + b, "\n"));
    } else {
      var s, t := a + "\r" + b, a + "\r\n" + b;
      assert s[1..] == a[1..] + "\r" + b && t[1..] == a[1..] + "\r\n" + b;
      assert s[1] == t[1] && s[0] == t[0] == a[0];
      LoneReturnIsReplaced(a[1..], b);
      OneReplaced(a[0], ReplaceCrLf(s[1..], "\n"));
      OneReplaced(a[0], ReplaceCrLf(t[1..], "\n"));
    }
  }

  lemma OneReplaced(c: char, s: string)
    ensures ReplaceChar([c] + s, '\r', "\n") == [if c == '\r' then '\n' else c] + ReplaceChar(s, '\r', "\n")
  {
    assert ([c] + s)[1..] == s;
  }

  /** Reading makes no difference between a carriage return and a CR LF pair. */
  lemma LoneReturnEndsTheLine(a: string, b: string)
    requires b != "" ==> b[0] != '\n'
    ensures Unfolded(a + "\r" + b) == Unfolded(a + "\r\n" + b)
  {
    LoneReturnIsReplaced(a, b);
  }

  // ---- No card that is read holds one ----

  predicate NoCr(text: Option<string>) { text.Some? ==> '\r' !in text.value }

  predicate NoneHoldsCr(texts: seq<string>) { forall i | 0 <= i < |texts| :: '\r' !in texts[i] }

  /** No text of the card holds a carriage return; a country is a code. */
  predicate HoldsNoCr(c: Card) {
    && '\r' !in c.name && NoCr(c.jobTitle) && NoCr(c.organization) && NoCr(c.email) && NoCr(c.emailSecondary)
    && NoCr(c.phone) && NoCr(c.phoneSecondary) && NoCr(c.website)
    && NoCr(c.street) && NoCr(c.postalCode) && NoCr(c.city) && NoCr(c.notes) && NoneHoldsCr(c.tags)
  }

  /** The charset of a quoted-printable value, and what its decoding may bring in. */
  ghost predicate CharsetBringsNoCr(charset: Option<string>, decode: Decoder) {
    charset.Some? ==> forall raw :: '\r' !in decode(raw, charset.value)
  }

  /** Every line that is read is plain, or is decoded to texts without a carriage return. */
  ghost predicate DecodingBringsNoCr(lines: seq<string>, decode: Decoder) {
    forall line | line in lines :: CharsetBringsNoCr(QpCharset(HeaderParts(line)[1..]), decode)
  }

  lemma {:induction false} UnescapedKeepsOut(s: string)
    requires '\r' !in s
    ensures '\r' !in Unescaped(s)
  {
    if s != "" {
      UnescapedKeepsOut(s[1..]);
      if |s| > 1 {
        UnescapedKeepsOut(s[2..]);
      }
    }
  }

  lemma StripKeepsOut(s: string)
    requires '\r' !in s
    ensures '\r' !in Strip(s)
  {
    LStripIs(s);
    RStripIs(LStrip(s));
  }

  lemma TextKeepsOut(raw: string, charset: Option<string>, decode: Decoder)
    requires '\r' !in raw && CharsetBringsNoCr(charset, decode)
    ensures '\r' !in TextOf(raw, charset, decode)
  {
    var plain := if charset.Some? then decode(raw, charset.value) else raw;
    UnescapedKeepsOut(plain);
    StripKeepsOut(Unescaped(plain));
  }

  lemma {:induction false} PiecesKeepOut(s: string, delimiter: char)
    requires '\r' !in s
    ensures NoneHoldsCr(Pieces(s, delimiter))
  {
    if s != "" {
      PiecesKeepOut(s[1..], delimiter);
      if |s| > 1 {
        PiecesKeepOut(s[2..], delimiter);
      }
    }
  }

  lemma PartsKeepOut(raw: string, delimiter: char, charset: Option<string>, decode: Decoder)
    requires '\r' !in raw && CharsetBringsNoCr(charset, decode)
    ensures NoneHoldsCr(PartsOf(raw, delimiter, charset, decode))
  {
    PiecesKeepOut(raw, delimiter);
    forall i | 0 <= i < |Pieces(raw, delimiter)| ensures '\r' !in PartsOf(raw, delimiter, charset, decode)[i] {
      TextKeepsOut(Pieces(raw, delimiter)[i], charset, decode);
    }
  }

  lemma {:induction false} NonEmptyKeepsOut(parts: seq<string>)
    requires NoneHoldsCr(parts)
    ensures NoneHoldsCr(NonEmpty(parts))
  {
    if parts != [] {
      NonEmptyKeepsOut(parts[1..]);
    }
  }

  /** The card being read holds no carriage return, and neither does what was gathered for it. */
  predicate GathersNoCr(o: Open) {
    && HoldsNoCr(o.card) && NoCr(o.fallback)
    && (forall i | 0 <= i < |o.mails| :: '\r' !in o.mails[i].address)
    && (forall i | 0 <= i < |o.phones| :: '\r' !in o.phones[i].number)
  }

  lemma TakeAddressKeepsOut(o: Open, parts: seq<string>, preferred: bool)
    requires |parts| >= 7 && NoneHoldsCr(parts) && GathersNoCr(o)
    ensures GathersNoCr(TakeAddress(o, parts, preferred))
  {
  }

  lemma NameKeepsOut(parts: seq<string>)
    requires parts != [] && NoneHoldsCr(parts)
    ensures '\r' !in NameOf(parts)
  {
    StripKeepsOut((if |parts| > 1 then parts[1] else "") + " " + parts[0]);
  }

  lemma TagsKeepOut(o: Open, parts: seq<string>)
    requires GathersNoCr(o) && NoneHoldsCr(parts)
    ensures GathersNoCr(o.(card := o.card.(tags := o.card.tags + NonEmpty(parts))))
  {
    NonEmptyKeepsOut(parts);
  }

  lemma TakeKindKeepsOut(o: Open, kind: Kind, params: seq<string>, value: string, decode: Decoder)
    requires GathersNoCr(o) && '\r' !in value && CharsetBringsNoCr(QpCharset(params), decode)
    ensures GathersNoCr(TakeKind(o, kind, params, value, decode))
  {
    var charset := QpCharset(params);
    TextKeepsOut(value, charset, decode);
    PartsKeepOut(value, ';', charset, decode);
    match kind
    case NameOfParts => NameKeepsOut(PartsOf(value, ';', charset, decode));
    case Adr =>
      TakeAddressKeepsOut(o, PartsOf(value, ';', charset, decode) + ["", "", "", "", "", "", ""], IsPreferred(params));
    case Tagged =>
      PartsKeepOut(value, ',', charset, decode);
      TagsKeepOut(o, PartsOf(value, ',', charset, decode));
    case _ =>
  }

  lemma {:induction false} AddressesKeepOut(mails: seq<Mail>, preferred: bool)
    requires forall i | 0 <= i < |mails| :: '\r' !in mails[i].address
    ensures NoneHoldsCr(Addresses(mails, preferred))
  {
    if mails != [] {
      AddressesKeepOut(mails[1..], preferred);
    }
  }

  lemma {:induction false} DistinctKeepsOut(texts: seq<string>)
    requires NoneHoldsCr(texts)
    ensures NoneHoldsCr(Distinct(texts))
  {
    if texts != [] {
      DistinctKeepsOut(texts[..|texts| - 1]);
    }
  }

  lemma CloseKeepsOut(o: Open)
    requires GathersNoCr(o)
    ensures HoldsNoCr(Close(o))
  {
    AddressesKeepOut(o.mails, true);
    AddressesKeepOut(o.mails, false);
    DistinctKeepsOut(Addresses(o.mails, true) + Addresses(o.mails, false));
    PickPhonesKeepsOut(o.phones);
  }

  lemma PickPhonesKeepsOut(phones: seq<Phone>)
    requires forall i | 0 <= i < |phones| :: '\r' !in phones[i].number
    ensures NoCr(PickPhones(phones).0) && NoCr(PickPhones(phones).1)
  {
  }

  ghost predicate ReadsNoCr(r: Reading) {
    (r.open.Some? ==> GathersNoCr(r.open.value)) && forall i | 0 <= i < |r.results| :: HoldsNoCr(r.results[i])
  }

  lemma TakeLineKeepsOut(r: Reading, line: string, decode: Decoder)
    requires ReadsNoCr(r) && '\r' !in line && CharsetBringsNoCr(QpCharset(HeaderParts(line)[1..]), decode)
    ensures ReadsNoCr(TakeLine(r, line, decode))
  {
    if r.open.Some? {
      var parts := HeaderParts(line);
      CloseKeepsOut(r.open.value);
      TakeKindKeepsOut(r.open.value, KindOf(AfterLast(parts[0], '.')), parts[1..], ValueOf(line), decode);
    }
  }

  lemma {:induction false} TakeLinesKeepOut(r: Reading, lines: seq<string>, decode: Decoder)
    requires ReadsNoCr(r) && DecodingBringsNoCr(lines, decode)
    requires forall line | line in lines :: '\r' !in line
    ensures ReadsNoCr(TakeLines(r, lines, decode))
    decreases |lines|
  {
    if lines != [] {
      assert lines[0] in lines && forall line | line in lines[1..] :: line in lines;
      TakeLineKeepsOut(r, lines[0], decode);
      TakeLinesKeepOut(TakeLine(r, lines[0], decode), lines[1..], decode);
    }
  }

  /** Whatever the file, no card that is read from it holds a carriage return. */
  lemma ParsedHoldsNoCr(text: string, decode: Decoder)
    requires DecodingBringsNoCr(Unfolded(text), decode)
    ensures forall i | 0 <= i < |Parsed(text, decode)| :: HoldsNoCr(Parsed(text, decode)[i])
  {
    NoCarriageReturnIsRead(text);
    TakeLinesKeepOut(Reading(None, []), Unfolded(text), decode);
  }
}
