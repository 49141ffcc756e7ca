/**
 The whole-stream round trip of backend/app/importers/vcard.py: what every field of every
 contact is after it was exported and read back. Every line that is written is one the reader keeps,
 every value comes back trimmed, and so does every card of the stream.
 */
module VcardStream {
  import opened Options
  import opened Text
  import opened Calendar
  import opened VcardText
  import opened VcardFold
  import opened VcardSurvival
  import opened VcardCard
  import opened VcardReturns
  import opened VcardRoundTrip
  import opened VcardReading

  // ---- What may be printed, and what comes back ----

  predicate IsClean(text: Option<string>) { text.Some? ==> NoLoneCr(text.value) }

  /** A country as the contact schema stores it: two ASCII capitals. */
  predicate IsCountryCode(code: string) {
    |code| == 2 && 'A' <= code[0] <= 'Z' && 'A' <= code[1] <= 'Z'
  }

  /** What the schema makes sure of: a contact has a name, and its country is a code. */
  predicate IsNamed(c: Card) {
    IsStorable(c) && Strip(Meant(c.name)) != "" && (c.country.Some? ==> IsCountryCode(c.country.value))
  }

  /**
   No text holds a carriage return that is not part of a CR LF: the printer writes such a one
   into the file as it is, where it breaks the line.
   */
  predicate HasNoLoneCr(c: Card) {
    && NoLoneCr(c.name) && IsClean(c.organization) && IsClean(c.jobTitle)
    && IsClean(c.email) && IsClean(c.emailSecondary) && IsClean(c.phone) && IsClean(c.phoneSecondary)
    && IsClean(c.website) && IsClean(c.street) && IsClean(c.postalCode) && IsClean(c.city) && IsClean(c.notes)
    && forall i | 0 <= i < |c.tags| :: NoLoneCr(c.tags[i])
  }

  predicate IsPrintable(c: Card) { IsNamed(c) && HasNoLoneCr(c) }

  /** Two addresses after the trip: the same one twice is one, and a lone second one moves up. */
  function KeptMails(first: Option<string>, second: Option<string>): (Option<string>, Option<string>) {
    if first.None? then (second, None) else if second == first then (first, None) else (first, second)
  }

  function CountryBack(country: Option<string>): Option<string> {
    if country == Some("UK") then Some("GB") else country
  }

  /** A contact as it is read back. */
  function ReadBackCard(c: Card): Card {
    var (email, emailSecondary) := KeptMails(Cleaned(c.email), Cleaned(c.emailSecondary));
    Card(Strip(Meant(c.name)), Cleaned(c.jobTitle), Cleaned(c.organization),
         email, emailSecondary, Cleaned(c.phone), Cleaned(c.phoneSecondary), Cleaned(c.website),
         Cleaned(c.street), Cleaned(c.postalCode), Cleaned(c.city), CountryBack(c.country),
         c.birthday, Cleaned(c.notes), NonEmpty(StripAll(c.tags)))
  }

  function ReadBackCards(cards: seq<Card>): (r: seq<Card>)
    ensures |r| == |cards| && forall i | 0 <= i < |cards| :: r[i] == ReadBackCard(cards[i])
  {
    seq(|cards|, i requires 0 <= i < |cards| => ReadBackCard(cards[i]))
  }

  // ---- Every line that is written is one the reader keeps ----

  predicate HasPlainHeader(p: Property) {
    IsPlainProperty(p.(value := "")) && p.name != "BEGIN" && p.name != "END"
  }

  ghost predicate HavePlainHeaders(properties: seq<Property>) {
    forall i | 0 <= i < |properties| :: HasPlainHeader(properties[i])
  }

  /** No value holds that character. */
  ghost predicate KeepOut(properties: seq<Property>, x: char) {
    forall i | 0 <= i < |properties| :: x !in properties[i].value
  }

  /** Escaping takes away every line feed, and no carriage return but that of a CR LF. */
  predicate Escapes(text: string, x: char) { x == '\n' || (x == '\r' && NoLoneCr(text)) }

  predicate EscapesIn(text: Option<string>, x: char) { text.Some? ==> Escapes(text.value, x) }

  predicate EscapesAll(c: Card, x: char) { x == '\n' || (x == '\r' && HasNoLoneCr(c)) }

  lemma {:induction false} EscapeEachKeepsOut(text: string, x: char)
    requires x == '\n' || (x == '\r' && '\r' !in text)
    ensures x !in EscapeEach(text)
  {
    if text != "" {
      EscapeEachKeepsOut(text[1..], x);
    }
  }

  lemma EscapeKeepsOut(text: string, x: char)
    requires Escapes(text, x)
    ensures x !in Escape(text)
  {
    LoneCrRemains(text);
    EscapeIsPerCharacter(text);
    EscapeEachKeepsOut(Meant(text), x);
  }

  lemma SingleHeader(name: string, param: Option<string>, text: Option<string>)
    requires HasPlainHeader(Property(name, param, ""))
    ensures HavePlainHeaders(Single(name, param, text))
  {
  }

  lemma SingleKeepsOut(name: string, param: Option<string>, text: Option<string>, x: char)
    requires EscapesIn(text, x)
    ensures KeepOut(Single(name, param, text), x)
  {
    if text.Some? {
      EscapeKeepsOut(text.value, x);
    }
  }

  lemma {:induction false} JoinKeepsOut(parts: seq<string>, delimiter: string, x: char)
    requires x !in delimiter && forall i | 0 <= i < |parts| :: x !in parts[i]
    ensures x !in Join(parts, delimiter)
  {
    if |parts| > 1 {
      JoinKeepsOut(parts[1..], delimiter, x);
    }
  }

  lemma {:induction false} WordHasNoSpace(s: string)
    ensures forall i | 0 <= i < WordEnd(s) :: !IsSpace(s[i])
  {
    if s != "" && !IsSpace(s[0]) {
      WordHasNoSpace(s[1..]);
    }
  }

  lemma PartIsClean(s: string, a: nat, b: nat)
    requires NoLoneCr(s) && a <= b <= |s|
    requires b == |s| || a == b || s[b - 1] != '\r'
    ensures NoLoneCr(s[a..b])
  {
    forall i | 0 <= i < b - a && s[a..b][i] == '\r' ensures i + 1 < b - a && s[a..b][i + 1] == '\n' {
      assert s[a + i] == '\r';
    }
  }

  lemma NamePartsAreClean(name: string)
    requires NoLoneCr(name)
    ensures var words := Strip(name);
            NoLoneCr(words[..WordEnd(words)]) && NoLoneCr(LStrip(words[WordEnd(words)..]))
  {
    StripIsClean(name);
    var words := Strip(name);
    FirstWordIsClean(words);
    PartIsClean(words, WordEnd(words), |words|);
    LStripIsClean(words[WordEnd(words)..]);
  }

  lemma NamePartsKeepOut(name: string, x: char)
    requires Escapes(name, x)
    ensures x !in NameParts(name)
  {
    if x == '\r' {
      NamePartsAreClean(name);
    }
    var words := Strip(name);
    EscapeKeepsOut(name, x);
    EscapeKeepsOut(words[..WordEnd(words)], x);
    EscapeKeepsOut(LStrip(words[WordEnd(words)..]), x);
  }

  lemma LStripIsClean(s: string)
    requires NoLoneCr(s)
    ensures NoLoneCr(LStrip(s))
  {
    LStripIs(s);
    PartIsClean(s, |s| - |LStrip(s)|, |s|);
  }

  lemma StripIsClean(s: string)
    requires NoLoneCr(s)
    ensures NoLoneCr(Strip(s))
  {
    LStripIsClean(s);
    var l := LStrip(s);
    RStripIs(l);
    assert Strip(s) == l[0..|Strip(s)|];
    PartIsClean(l, 0, |Strip(s)|);
  }

  lemma FirstWordIsClean(s: string)
    ensures NoLoneCr(s[..WordEnd(s)])
  {
    WordHasNoSpace(s);
  }

  lemma NamingHeaders(c: Card)
    ensures HavePlainHeaders(Naming(c))
  {
  }

  lemma NamingKeepsOut(c: Card, x: char)
    requires Escapes(c.name, x)
    ensures KeepOut(Naming(c), x)
  {
    EscapeKeepsOut(c.name, x);
    NamePartsKeepOut(c.name, x);
  }

  lemma WorkHeaders(c: Card)
    ensures HavePlainHeaders(Work(c))
  {
    SingleHeader("ORG", None, c.organization);
    SingleHeader("TITLE", None, c.jobTitle);
  }

  lemma WorkKeepsOut(c: Card, x: char)
    requires EscapesAll(c, x)
    ensures KeepOut(Work(c), x)
  {
    SingleKeepsOut("ORG", None, c.organization, x);
    SingleKeepsOut("TITLE", None, c.jobTitle, x);
  }

  lemma MailsHeaders(c: Card, preferred: string, plain: string)
    requires preferred == "TYPE=INTERNET,PREF" && plain == "TYPE=INTERNET"
    ensures HavePlainHeaders(Mails(c))
  {
    MailParameters(preferred, plain);
    SingleHeader("EMAIL", Some(preferred), c.email);
    SingleHeader("EMAIL", Some(plain), c.emailSecondary);
  }

  lemma MailsKeepOut(c: Card, x: char)
    requires EscapesIn(c.email, x) && EscapesIn(c.emailSecondary, x)
    ensures KeepOut(Mails(c), x)
  {
    SingleKeepsOut("EMAIL", Some("TYPE=INTERNET,PREF"), c.email, x);
    SingleKeepsOut("EMAIL", Some("TYPE=INTERNET"), c.emailSecondary, x);
  }

  lemma PhonesHeaders(c: Card, preferred: string, cell: string)
    requires preferred == "TYPE=VOICE,PREF" && cell == "TYPE=CELL"
    ensures HavePlainHeaders(Phones(c))
  {
    PhoneParameters(preferred, cell);
    SingleHeader("TEL", Some(preferred), c.phone);
    SingleHeader("TEL", Some(cell), c.phoneSecondary);
  }

  lemma PhonesKeepOut(c: Card, x: char)
    requires EscapesAll(c, x)
    ensures KeepOut(Phones(c), x)
  {
    SingleKeepsOut("TEL", Some("TYPE=VOICE,PREF"), c.phone, x);
    SingleKeepsOut("TEL", Some("TYPE=CELL"), c.phoneSecondary, x);
  }

  lemma WorkAddress(param: string)
    requires param == "TYPE=WORK"
    ensures IsPlain(param)
  {
  }

  lemma LocationHeaders(c: Card)
    ensures HavePlainHeaders(Location(c))
  {
    SingleHeader("URL", None, c.website);
    WorkAddress("TYPE=WORK");
  }

  lemma SevenKeepOut(street: string, city: string, postal: string, country: string, x: char)
    requires x !in street && x !in city && x !in postal && x !in country && x != ';'
    ensures x !in Join(["", "", street, city, "", postal, country], ";")
  {
    JoinKeepsOut(["", "", street, city, "", postal, country], ";", x);
  }

  lemma CountryEscapes(country: Option<string>, x: char)
    requires x == '\n' || x == '\r'
    requires country.Some? ==> IsCountryCode(country.value)
    ensures x !in Escape(country.GetOr(""))
  {
    EscapeKeepsOut(country.GetOr(""), x);
  }

  lemma AddressKeepsOut(c: Card, x: char)
    requires IsNamed(c) && EscapesAll(c, x)
    ensures KeepOut(Address(c), x)
  {
    EscapeKeepsOut(c.street.GetOr(""), x);
    EscapeKeepsOut(c.city.GetOr(""), x);
    EscapeKeepsOut(c.postalCode.GetOr(""), x);
    CountryEscapes(c.country, x);
    SevenKeepOut(Escape(c.street.GetOr("")), Escape(c.city.GetOr("")), Escape(c.postalCode.GetOr("")), Escape(c.country.GetOr("")), x);
  }

  lemma LocationKeepsOut(c: Card, x: char)
    requires IsNamed(c) && EscapesAll(c, x)
    ensures KeepOut(Location(c), x)
  {
    SingleKeepsOut("URL", None, c.website, x);
    AddressKeepsOut(c, x);
  }

  lemma RestHeaders(c: Card)
    requires IsStorable(c)
    ensures HavePlainHeaders(Rest(c))
  {
    SingleHeader("NOTE", None, c.notes);
  }

  lemma CategoriesKeepOut(c: Card, x: char)
    requires EscapesAll(c, x)
    ensures KeepOut(Categories(c.tags), x)
  {
    forall i | 0 <= i < |c.tags| ensures x !in EscapeTags(c.tags)[i] {
      EscapeKeepsOut(c.tags[i], x);
    }
    JoinKeepsOut(EscapeTags(c.tags), ",", x);
  }

  lemma BirthdayKeepsOut(d: Option<Date>, x: char)
    requires (d.Some? ==> IsDate(d.value)) && (x == '\n' || x == '\r')
    ensures KeepOut(Birthday(d), x)
  {
  }

  lemma RestKeepsOut(c: Card, x: char)
    requires IsStorable(c) && EscapesAll(c, x)
    ensures KeepOut(Rest(c), x)
  {
    BirthdayKeepsOut(c.birthday, x);
    CategoriesKeepOut(c, x);
    SingleKeepsOut("NOTE", None, c.notes, x);
  }

  lemma CardHeaders(c: Card)
    requires IsStorable(c)
    ensures HavePlainHeaders(Naming(c) + Details(c))
  {
    NamingHeaders(c);
    WorkHeaders(c);
    MailsHeaders(c, "TYPE=INTERNET,PREF", "TYPE=INTERNET");
    PhonesHeaders(c, "TYPE=VOICE,PREF", "TYPE=CELL");
    LocationHeaders(c);
    RestHeaders(c);
    HeadersAppend(Work(c), Mails(c));
    HeadersAppend(Work(c) + Mails(c), Phones(c));
    HeadersAppend(Work(c) + Mails(c) + Phones(c), Location(c));
    HeadersAppend(Work(c) + Mails(c) + Phones(c) + Location(c), Rest(c));
    HeadersAppend(Naming(c), Details(c));
  }

  lemma HeadersAppend(a: seq<Property>, b: seq<Property>)
    requires HavePlainHeaders(a) && HavePlainHeaders(b)
    ensures HavePlainHeaders(a + b)
  {
  }

  lemma CardKeepsOut(c: Card, x: char)
    requires IsNamed(c) && EscapesAll(c, x)
    ensures KeepOut(Naming(c) + Details(c), x)
  {
    NamingKeepsOut(c, x);
    WorkKeepsOut(c, x);
    MailsKeepOut(c, x);
    PhonesKeepOut(c, x);
    LocationKeepsOut(c, x);
    RestKeepsOut(c, x);
    KeepOutAppend(Work(c), Mails(c), x);
    KeepOutAppend(Work(c) + Mails(c), Phones(c), x);
    KeepOutAppend(Work(c) + Mails(c) + Phones(c), Location(c), x);
    KeepOutAppend(Work(c) + Mails(c) + Phones(c) + Location(c), Rest(c), x);
    KeepOutAppend(Naming(c), Details(c), x);
  }

  lemma KeepOutAppend(a: seq<Property>, b: seq<Property>, x: char)
    requires KeepOut(a, x) && KeepOut(b, x)
    ensures KeepOut(a + b, x)
  {
  }

  lemma DetailsAppend(a: seq<Property>, b: seq<Property>)
    requires AreDetails(a) && AreDetails(b)
    ensures AreDetails(a + b)
  {
  }

  lemma AreDetailsIfFree(properties: seq<Property>)
    requires HavePlainHeaders(properties) && KeepOut(properties, '\r') && KeepOut(properties, '\n')
    ensures AreDetails(properties)
  {
    forall i | 0 <= i < |properties|
      ensures IsPlainProperty(properties[i]) && properties[i].name != "BEGIN" && properties[i].name != "END"
    {
      assert HasPlainHeader(properties[i]);
      assert properties[i].Header() == properties[i].(value := "").Header();
    }
  }

  lemma CardIsDetail(c: Card)
    requires IsPrintable(c)
    ensures AreDetails(Naming(c) + Details(c))
  {
    CardHeaders(c);
    CardKeepsOut(c, '\r');
    CardKeepsOut(c, '\n');
    AreDetailsIfFree(Naming(c) + Details(c));
  }

  // ---- The remaining properties ----

  lemma {:induction false} NumberAppend(s: string, t: string)
    requires forall i | 0 <= i < |s| :: IsDigit(s[i])
    requires |t| == 2 && IsDigit(t[0]) && IsDigit(t[1])
    ensures forall i | 0 <= i < |s + t| :: IsDigit((s + t)[i])
    ensures Number(s + t) == 100 * Number(s) + 10 * (t[0] as int - '0' as int) + (t[1] as int - '0' as int)
  {
    assert (s + t)[..|s| + 1] == s + [t[0]];
    assert (s + [t[0]])[..|s|] == s;
  }

  lemma TwoDigitsNumber(n: int)
    requires 0 <= n <= 99
    ensures forall i | 0 <= i < 2 :: IsDigit(TwoDigits(n)[i])
    ensures Number(TwoDigits(n)) == n
  {
    NumberAppend("", TwoDigits(n));
    assert "" + TwoDigits(n) == TwoDigits(n);
  }

  /** The eight digits of a date. */
  function Digits(d: Date): string
    requires IsDate(d)
  {
    TwoDigits(d.year / 100) + TwoDigits(d.year % 100) + TwoDigits(d.month) + TwoDigits(d.day)
  }

  lemma DashesGo(d: Date)
    requires IsDate(d)
    ensures ReplaceChar(IsoDate(d), '-', "") == Digits(d)
  {
    var year, month, day := TwoDigits(d.year / 100) + TwoDigits(d.year % 100), TwoDigits(d.month), TwoDigits(d.day);
    DashGoes(year, "-", month);
    DashGoes(year + "-" + month, "-", day);
    ReplaceCharAbsent(year, '-', "");
    ReplaceCharAbsent(month, '-', "");
    ReplaceCharAbsent(day, '-', "");
  }

  lemma DashGoes(s: string, dash: string, t: string)
    requires dash == "-"
    ensures ReplaceChar(s + dash + t, '-', "") == ReplaceChar(s, '-', "") + ReplaceChar(t, '-', "")
  {
    assert dash[1..] == "" && ReplaceChar(dash, '-', "") == "";
    ReplaceCharAppend(s + dash, t, '-', "");
    ReplaceCharAppend(s, dash, '-', "");
    assert ReplaceChar(s, '-', "") + "" == ReplaceChar(s, '-', "");
  }

  lemma DateIsRead(d: Date)
    requires IsDate(d)
    ensures ParseDate(IsoDate(d)) == Some(d)
  {
    DashesGo(d);
    TwoDigitsNumber(d.year / 100);
    TwoDigitsNumber(d.month);
    TwoDigitsNumber(d.day);
    NumberAppend(TwoDigits(d.year / 100), TwoDigits(d.year % 100));
    var clean := Digits(d);
    assert clean[..4] == TwoDigits(d.year / 100) + TwoDigits(d.year % 100);
    assert clean[4..6] == TwoDigits(d.month) && clean[6..] == TwoDigits(d.day);
  }

  lemma {:induction false} NothingToUnescape(s: string)
    requires '\\' !in s
    ensures Unescaped(s) == s
  {
    if s != "" {
      NothingToUnescape(s[1..]);
    }
  }

  lemma TakeBirthday(o: Open, d: Option<Date>, decode: Decoder)
    requires (d.Some? ==> IsDate(d.value)) && o.card.birthday.None?
    ensures TakeAll(o, Birthday(d), decode) == o.(card := o.card.(birthday := d))
  {
    if d.Some? {
      DateHasNoBlanks(d.value);
      BirthdayProperty(o, Property("BDAY", None, IsoDate(d.value)), decode);
      DateIsRead(d.value);
    }
  }

  lemma DateHasNoBlanks(d: Date)
    requires IsDate(d)
    ensures Strip(IsoDate(d)) == RStrip(IsoDate(d)) == IsoDate(d) && '\\' !in IsoDate(d)
  {
  }

  lemma BirthdayProperty(o: Open, p: Property, decode: Decoder)
    requires KindOf(p.name) == Born && p.param.None? && o.card.birthday.None?
    requires Strip(p.value) == RStrip(p.value) == p.value && '\\' !in p.value
    ensures TakeAll(o, [p], decode) == o.(card := o.card.(birthday := ParseDate(p.value)))
  {
    PlainCharset([]);
    NothingToUnescape(p.value);
  }

  lemma TakeCategories(o: Open, tags: seq<string>, decode: Decoder)
    ensures TakeAll(o, Categories(tags), decode) == o.(card := o.card.(tags := o.card.tags + NonEmpty(StripAll(tags))))
  {
    if tags == [] {
      assert o.card.tags + [] == o.card.tags;
    } else {
      CategoriesProperty(o, Categories(tags)[0], decode);
      PartsAreRead(tags, ',', decode);
    }
  }

  lemma CategoriesProperty(o: Open, p: Property, decode: Decoder)
    requires KindOf(p.name) == Tagged && p.param.None?
    ensures TakeAll(o, [p], decode)
         == o.(card := o.card.(tags := o.card.tags + NonEmpty(PartsOf(RStrip(p.value), ',', None, decode))))
  {
    PlainCharset([]);
  }

  // ---- The address ----

  /** Of all two-letter names only "uk" is mapped. */
  lemma ShortNames(name: string)
    requires |name| == 2
    ensures CountryCode(name) == if name == "uk" then Some("GB") else None
  {
  }

  lemma TwoCapitals(code: string)
    requires IsCountryCode(code)
    ensures Lower(code) == [code[0] - 'A' + 'a', code[1] - 'A' + 'a']
    ensures Upper(code) == code && Strip(code) == code && Meant(code) == code
  {
    assert code[1..] == [code[1]] && code[1..][1..] == "";
    assert Lower(code[1..]) == [code[1] - 'A' + 'a'];
    assert Meant("") == "" && Meant(code[1..]) == [code[1]] + "";
    assert [code[0]] + code[1..] == code;
    UpperOfCapitals(code);
    RStripUnique(code, code);
  }

  /** A stored code is read as itself, except that UK is read as GB. */
  lemma CountryIsRead(code: string)
    requires IsCountryCode(code)
    ensures Strip(Meant(code)) == code
    ensures NormalizeCountry(code) == CountryBack(Some(code))
  {
    TwoCapitals(code);
    ShortNames(Lower(code));
    UkInCapitals(code, "uk");
  }

  lemma UkInCapitals(code: string, uk: string)
    requires IsCountryCode(code) && uk == "uk"
    ensures code == "UK" <==> [code[0] - 'A' + 'a', code[1] - 'A' + 'a'] == uk
  {
    assert code == [code[0], code[1]];
  }

  function AddressTexts(c: Card): seq<string> {
    ["", "", c.street.GetOr(""), c.city.GetOr(""), "", c.postalCode.GetOr(""), c.country.GetOr("")]
  }

  lemma AddressIsJoined(c: Card)
    ensures AddressValue(c) == Join(EscapeTags(AddressTexts(c)), ";")
  {
    EscapeIsPerCharacter("");
    assert EscapeTags(AddressTexts(c)) ==
      ["", "", Escape(c.street.GetOr("")), Escape(c.city.GetOr("")), "", Escape(c.postalCode.GetOr("")),
       Escape(c.country.GetOr(""))];
  }

  /** The card once its address has been read. */
  function Located(o: Open, c: Card): Card {
    o.card.(street := Cleaned(c.street), city := Cleaned(c.city), postalCode := Cleaned(c.postalCode),
            country := CountryBack(c.country))
  }

  lemma TakeAddressParts(o: Open, c: Card, preferred: bool)
    requires c.country.Some? ==> IsCountryCode(c.country.value)
    requires o.addressPreferred.None?
    requires o.card.street.None? && o.card.city.None? && o.card.postalCode.None? && o.card.country.None?
    ensures var after := TakeAddress(o, StripAll(AddressTexts(c)) + ["", "", "", "", "", "", ""], preferred);
            after == o.(card := Located(o, c), addressPreferred := after.addressPreferred)
  {
    assert Strip(Meant("")) == "";
    if c.country.Some? {
      CountryIsRead(c.country.value);
    }
  }

  lemma TakeAddressLine(o: Open, c: Card, decode: Decoder)
    requires c.country.Some? ==> IsCountryCode(c.country.value)
    requires o.addressPreferred.None?
    requires o.card.street.None? && o.card.city.None? && o.card.postalCode.None? && o.card.country.None?
    ensures var after := TakeAll(o, Address(c), decode);
            after == o.(card := Located(o, c), addressPreferred := after.addressPreferred)
  {
    if Address(c) == [] {
      NoAddressLine(o, c);
    } else {
      AddressProperty(o, Address(c)[0], "TYPE=WORK", decode);
      AddressIsJoined(c);
      PartsAreRead(AddressTexts(c), ';', decode);
      TakeAddressParts(o, c, IsPreferred(["TYPE=WORK"]));
    }
  }

  lemma AddressProperty(o: Open, p: Property, param: string, decode: Decoder)
    requires KindOf(p.name) == Adr && p.param == Some(param) && param == "TYPE=WORK"
    ensures TakeAll(o, [p], decode)
         == TakeAddress(o, PartsOf(RStrip(p.value), ';', None, decode) + ["", "", "", "", "", "", ""], IsPreferred([param]))
  {
    WorkAddress(param);
    PlainCharset([param]);
  }

  lemma NoAddressLine(o: Open, c: Card)
    requires Address(c) == []
    requires c.country.Some? ==> IsCountryCode(c.country.value)
    requires o.card.street.None? && o.card.city.None? && o.card.postalCode.None? && o.card.country.None?
    ensures Located(o, c) == o.card
  {
    assert Strip(Meant("")) == "";
  }

  // ---- The whole card ----

  lemma TakeNaming(c: Card, decode: Decoder)
    ensures var after := TakeAll(FRESH, Naming(c), decode);
            after == FRESH.(card := EMPTY_CARD.(name := Strip(Meant(c.name))), fallback := after.fallback)
  {
    var version, fn, n := Naming(c)[0], Naming(c)[1], Naming(c)[2];
    TextIsRead(c.name, decode);
    NamingKinds(c);
    ThreeNames(version, fn, n, Strip(Meant(c.name)), decode);
    assert [version] + ([fn] + [n]) == Naming(c);
  }

  lemma NamingKinds(c: Card)
    ensures KindOf(Naming(c)[0].name) == Other && KindOf(Naming(c)[1].name) == FullName && KindOf(Naming(c)[2].name) == NameOfParts
    ensures Naming(c)[1].param.None? && Naming(c)[1].value == Escape(c.name)
  {
  }

  lemma ThreeNames(version: Property, fn: Property, n: Property, name: string, decode: Decoder)
    requires KindOf(version.name) == Other && KindOf(fn.name) == FullName && fn.param.None? && KindOf(n.name) == NameOfParts
    requires TextOf(RStrip(fn.value), None, decode) == name
    ensures var after := TakeAll(FRESH, [version] + ([fn] + [n]), decode);
            after == FRESH.(card := EMPTY_CARD.(name := name), fallback := after.fallback)
  {
    VersionProperty(FRESH, version, decode);
    FullNameProperty(FRESH, fn, decode);
    NamePartsProperty(FRESH.(card := EMPTY_CARD.(name := name)), n, decode);
    TakeAllAppend(FRESH, [version], [fn] + [n], decode);
    TakeAllAppend(FRESH, [fn], [n], decode);
  }

  lemma VersionProperty(o: Open, p: Property, decode: Decoder)
    requires KindOf(p.name) == Other
    ensures TakeAll(o, [p], decode) == o
  {
  }

  lemma FullNameProperty(o: Open, p: Property, decode: Decoder)
    requires KindOf(p.name) == FullName && p.param.None?
    ensures TakeAll(o, [p], decode) == o.(card := o.card.(name := TextOf(RStrip(p.value), None, decode)))
  {
    PlainCharset([]);
  }

  lemma NamePartsProperty(o: Open, p: Property, decode: Decoder)
    requires KindOf(p.name) == NameOfParts
    ensures var after := TakeAll(o, [p], decode); after == o.(fallback := after.fallback)
  {
  }

  lemma TakeWork(o: Open, c: Card, decode: Decoder)
    requires o.card.organization.None? && o.card.jobTitle.None?
    ensures TakeAll(o, Work(c), decode)
         == o.(card := o.card.(organization := Cleaned(c.organization), jobTitle := Cleaned(c.jobTitle)))
  {
    var next := o.(card := o.card.(organization := Cleaned(c.organization)));
    TakeOrganization(o, "ORG", c.organization, decode);
    TakeTitle(next, "TITLE", c.jobTitle, decode);
    TakeAllAppend(o, Single("ORG", None, c.organization), Single("TITLE", None, c.jobTitle), decode);
  }

  lemma TakeMails(o: Open, c: Card, preferred: string, plain: string, decode: Decoder)
    requires preferred == "TYPE=INTERNET,PREF" && plain == "TYPE=INTERNET"
    requires o.mails == []
    ensures TakeAll(o, Mails(c), decode) == o.(mails := MailOf(true, c.email) + MailOf(false, c.emailSecondary))
  {
    MailParameters(preferred, plain);
    TakeMail(o, "EMAIL", preferred, true, c.email, decode);
    var next := o.(mails := o.mails + MailOf(true, c.email));
    TakeMail(next, "EMAIL", plain, false, c.emailSecondary, decode);
    TakeAllAppend(o, Single("EMAIL", Some(preferred), c.email), Single("EMAIL", Some(plain), c.emailSecondary), decode);
    assert next.mails == MailOf(true, c.email);
  }

  lemma TakePhones(o: Open, c: Card, preferred: string, cell: string, decode: Decoder)
    requires preferred == "TYPE=VOICE,PREF" && cell == "TYPE=CELL"
    requires o.phones == []
    ensures TakeAll(o, Phones(c), decode)
         == o.(phones := PhoneOf(true, IsCell([preferred]), c.phone) + PhoneOf(false, true, c.phoneSecondary))
  {
    PhoneParameters(preferred, cell);
    TakePhone(o, "TEL", preferred, true, IsCell([preferred]), c.phone, decode);
    var next := o.(phones := o.phones + PhoneOf(true, IsCell([preferred]), c.phone));
    TakePhone(next, "TEL", cell, false, true, c.phoneSecondary, decode);
    TakeAllAppend(o, Single("TEL", Some(preferred), c.phone), Single("TEL", Some(cell), c.phoneSecondary), decode);
    assert next.phones == PhoneOf(true, IsCell([preferred]), c.phone);
  }

  lemma TakeLocation(o: Open, c: Card, decode: Decoder)
    requires c.country.Some? ==> IsCountryCode(c.country.value)
    requires o.addressPreferred.None? && o.card.website.None?
    requires o.card.street.None? && o.card.city.None? && o.card.postalCode.None? && o.card.country.None?
    ensures var after := TakeAll(o, Location(c), decode);
            after == o.(card := Located(o, c).(website := Cleaned(c.website)), addressPreferred := after.addressPreferred)
  {
    TakeWebsite(o, "URL", c.website, decode);
    var next := o.(card := o.card.(website := Cleaned(c.website)));
    TakeAddressLine(next, c, decode);
    TakeAllAppend(o, Single("URL", None, c.website), Address(c), decode);
  }

  lemma TakeRest(o: Open, c: Card, decode: Decoder)
    requires IsStorable(c) && o.card.birthday.None? && o.card.notes.None? && o.card.tags == []
    ensures TakeAll(o, Rest(c), decode)
         == o.(card := o.card.(birthday := c.birthday, tags := NonEmpty(StripAll(c.tags)), notes := Cleaned(c.notes)))
  {
    var born := o.(card := o.card.(birthday := c.birthday));
    TakeBirthday(o, c.birthday, decode);
    TakeCategories(born, c.tags, decode);
    assert [] + NonEmpty(StripAll(c.tags)) == NonEmpty(StripAll(c.tags));
    var tagged := born.(card := born.card.(tags := NonEmpty(StripAll(c.tags))));
    TakeNotes(tagged, "NOTE", c.notes, decode);
    TakeAllAppend(o, Birthday(c.birthday), Categories(c.tags), decode);
    TakeAllAppend(o, Birthday(c.birthday) + Categories(c.tags), Single("NOTE", None, c.notes), decode);
  }

  lemma {:induction false} AddressesAppend(a: seq<Mail>, b: seq<Mail>, preferred: bool)
    ensures Addresses(a + b, preferred) == Addresses(a, preferred) + Addresses(b, preferred)
  {
    if a == [] {
      assert a + b == b;
    } else {
      assert (a + b)[1..] == a[1..] + b;
      AddressesAppend(a[1..], b, preferred);
    }
  }

  lemma AddressesOfMail(mine: bool, text: Option<string>, preferred: bool)
    ensures Addresses(MailOf(mine, text), preferred)
         == if mine == preferred && Cleaned(text).Some? then [Cleaned(text).value] else []
  {
    if Cleaned(text).Some? {
      assert MailOf(mine, text)[1..] == [];
    }
  }

  lemma DistinctOfTwo(a: string, b: string)
    ensures Distinct([a, b]) == if a == b then [a] else [a, b]
    ensures Distinct([a]) == [a]
  {
    assert [a][..0] == [] && Distinct([a]) == [a];
    assert [a, b][..1] == [a];
  }

  lemma MailsArePicked(first: Option<string>, second: Option<string>)
    ensures PickEmails(MailOf(true, first) + MailOf(false, second)) == KeptMails(Cleaned(first), Cleaned(second))
  {
    AddressesAppend(MailOf(true, first), MailOf(false, second), true);
    AddressesAppend(MailOf(true, first), MailOf(false, second), false);
    AddressesOfMail(true, first, true);
    AddressesOfMail(true, first, false);
    AddressesOfMail(false, second, true);
    AddressesOfMail(false, second, false);
    DistinctOfTwo(Cleaned(first).GetOr(""), Cleaned(second).GetOr(""));
    DistinctOfTwo(Cleaned(second).GetOr(""), "");
  }

  lemma PhonesArePicked(first: Option<string>, second: Option<string>, cell: bool)
    ensures PickPhones(PhoneOf(true, cell, first) + PhoneOf(false, true, second)) == (Cleaned(first), Cleaned(second))
  {
    var a, b := PhoneOf(true, cell, first), PhoneOf(false, true, second);
    var phones := a + b;
    assert a != [] ==> phones[1..] == b && phones[..0] + b == b;
    assert a == [] ==> phones == b;
    assert b != [] ==> b[1..] == [];
  }

  /** Everything between the marks of a card, read from a fresh start. */
  lemma CardIsTaken(c: Card, decode: Decoder)
    requires IsNamed(c)
    ensures Close(TakeAll(FRESH, Naming(c) + Details(c), decode)) == ReadBackCard(c)
  {
    var o0 := TakeAll(FRESH, Naming(c), decode);
    TakeNaming(c, decode);
    var o1 := TakeAll(o0, Work(c), decode);
    TakeWork(o0, c, decode);
    var o2 := TakeAll(o1, Mails(c), decode);
    TakeMails(o1, c, "TYPE=INTERNET,PREF", "TYPE=INTERNET", decode);
    var o3 := TakeAll(o2, Phones(c), decode);
    TakePhones(o2, c, "TYPE=VOICE,PREF", "TYPE=CELL", decode);
    var o4 := TakeAll(o3, Location(c), decode);
    TakeLocation(o3, c, decode);
    var o5 := TakeAll(o4, Rest(c), decode);
    TakeRest(o4, c, decode);
    DetailsAreTaken(o0, c, decode);
    TakeAllAppend(FRESH, Naming(c), Details(c), decode);
    MailsArePicked(c.email, c.emailSecondary);
    PhonesArePicked(c.phone, c.phoneSecondary, IsCell(["TYPE=VOICE,PREF"]));
  }

  lemma DetailsAreTaken(o: Open, c: Card, decode: Decoder)
    requires IsStorable(c)
    ensures TakeAll(o, Details(c), decode)
         == TakeAll(TakeAll(TakeAll(TakeAll(TakeAll(o, Work(c), decode), Mails(c), decode), Phones(c), decode),
              Location(c), decode), Rest(c), decode)
  {
    TakeAllAppend(o, Work(c), Mails(c), decode);
    TakeAllAppend(o, Work(c) + Mails(c), Phones(c), decode);
    TakeAllAppend(o, Work(c) + Mails(c) + Phones(c), Location(c), decode);
    TakeAllAppend(o, Work(c) + Mails(c) + Phones(c) + Location(c), Rest(c), decode);
  }

  // ---- The whole stream ----

  ghost predicate ArePrintable(cards: seq<Card>) {
    forall c | c in cards :: IsPrintable(c)
  }

  lemma CardIsPlain(c: Card, begin: Property, end: Property)
    requires IsPrintable(c) && begin == Property("BEGIN", None, "VCARD") && end == Property("END", None, "VCARD")
    ensures ArePlain(Properties(c))
  {
    CardIsDetail(c);
    MarksArePlain(begin, end);
  }

  lemma MarksArePlain(begin: Property, end: Property)
    requires begin == Property("BEGIN", None, "VCARD") && end == Property("END", None, "VCARD")
    ensures ArePlain([begin]) && ArePlain([end])
  {
  }

  lemma {:induction false} StreamIsPlain(cards: seq<Card>)
    requires ArePrintable(cards)
    ensures ArePlain(AllProperties(cards))
  {
    if cards != [] {
      assert cards[0] in cards;
      CardIsPlain(cards[0], Property("BEGIN", None, "VCARD"), Property("END", None, "VCARD"));
      assert forall c | c in cards[1..] :: c in cards;
      StreamIsPlain(cards[1..]);
    }
  }

  lemma {:induction false} StreamIsTaken(results: seq<Card>, cards: seq<Card>, decode: Decoder)
    requires ArePrintable(cards)
    ensures TakeLines(Reading(None, results), Lines(SeenAll(AllProperties(cards))), decode)
         == Reading(None, results + ReadBackCards(cards))
    decreases |cards|
  {
    if cards == [] {
      assert results + ReadBackCards(cards) == results;
    } else {
      StreamStep(results, cards, decode);
      var next := results + ReadBackCards(cards)[..1];
      StreamIsTaken(next, cards[1..], decode);
      BackInOrder(results, cards);
    }
  }

  lemma BackInOrder(results: seq<Card>, cards: seq<Card>)
    requires cards != []
    ensures results + ReadBackCards(cards)[..1] + ReadBackCards(cards[1..]) == results + ReadBackCards(cards)
  {
    assert ReadBackCards(cards)[1..] == ReadBackCards(cards[1..]);
  }

  lemma StreamStep(results: seq<Card>, cards: seq<Card>, decode: Decoder)
    requires cards != [] && ArePrintable(cards)
    ensures ArePrintable(cards[1..])
    ensures TakeLines(Reading(None, results), Lines(SeenAll(AllProperties(cards))), decode)
         == TakeLines(Reading(None, results + ReadBackCards(cards)[..1]), Lines(SeenAll(AllProperties(cards[1..]))), decode)
  {
    assert ReadBackCards(cards)[..1] == [ReadBackCard(cards[0])];
    assert cards[0] in cards && forall c | c in cards[1..] :: c in cards;
    OneMoreCard(results, cards[0], AllProperties(cards[1..]), decode);
  }

  lemma OneMoreCard(results: seq<Card>, c: Card, others: seq<Property>, decode: Decoder)
    requires IsPrintable(c)
    ensures TakeLines(Reading(None, results), Lines(SeenAll(Properties(c) + others)), decode)
         == TakeLines(Reading(None, results + [ReadBackCard(c)]), Lines(SeenAll(others)), decode)
  {
    SeenLinesAppend(Properties(c), others);
    CardIsDetail(c);
    TakeCard(results, Naming(c) + Details(c), Lines(SeenAll(others)), decode);
    CardIsTaken(c, decode);
  }

  /**
   Reading what was written gives one card per contact, in order, every field the trimmed
   original: escaping, folding, splitting and the parser loop all undone at once.
   */
  lemma WholeStreamRoundTrip(cards: seq<Card>, decode: Decoder)
    requires ArePrintable(cards)
    ensures Parsed(PrintedAll(cards), decode) == ReadBackCards(cards)
  {
    StreamIsPlain(cards);
    StreamUnfolds(cards);
    StreamIsTaken([], cards, decode);
  }

  /** Every carriage return of the text that is no half of a CR LF has something visible on both sides. */
  predicate IsInner(text: string) { '\r' in Meant(text) ==> '\r' in Strip(Meant(text)) }

  predicate IsInnerIn(text: Option<string>) { text.Some? ==> IsInner(text.value) }

  /** No text of the contact begins or ends with a lone carriage return among its blanks. */
  predicate HasOnlyInnerCr(c: Card) {
    && IsInner(c.name) && IsInnerIn(c.organization) && IsInnerIn(c.jobTitle)
    && IsInnerIn(c.email) && IsInnerIn(c.emailSecondary) && IsInnerIn(c.phone) && IsInnerIn(c.phoneSecondary)
    && IsInnerIn(c.website) && IsInnerIn(c.street) && IsInnerIn(c.postalCode) && IsInnerIn(c.city) && IsInnerIn(c.notes)
    && forall i | 0 <= i < |c.tags| :: IsInner(c.tags[i])
  }

  lemma CleanedTellsCr(text: Option<string>)
    requires IsInnerIn(text) && NoCr(Cleaned(text))
    ensures IsClean(text)
  {
    if text.Some? {
      LoneCrRemains(text.value);
    }
  }

  lemma {:induction false} NonEmptyHoldsAll(parts: seq<string>, i: nat)
    requires i < |parts| && parts[i] != ""
    ensures parts[i] in NonEmpty(parts)
  {
    if i > 0 {
      NonEmptyHoldsAll(parts[1..], i - 1);
    }
  }

  lemma TagsTellCr(tags: seq<string>, i: nat)
    requires NoneHoldsCr(NonEmpty(StripAll(tags))) && i < |tags| && IsInner(tags[i])
    ensures NoLoneCr(tags[i])
  {
    LoneCrRemains(tags[i]);
    if Strip(Meant(tags[i])) != "" {
      NonEmptyHoldsAll(StripAll(tags), i);
    }
  }

  lemma ReadBackTellsCr(c: Card)
    requires HasOnlyInnerCr(c) && HoldsNoCr(ReadBackCard(c))
    ensures HasNoLoneCr(c)
  {
    LoneCrRemains(c.name);
    MailsTellCr(c.email, c.emailSecondary);
    CleanedTellsCr(c.organization);
    CleanedTellsCr(c.jobTitle);
    CleanedTellsCr(c.phone);
    CleanedTellsCr(c.phoneSecondary);
    CleanedTellsCr(c.website);
    CleanedTellsCr(c.street);
    CleanedTellsCr(c.postalCode);
    CleanedTellsCr(c.city);
    CleanedTellsCr(c.notes);
    forall i | 0 <= i < |c.tags| ensures NoLoneCr(c.tags[i]) {
      TagsTellCr(c.tags, i);
    }
  }

  lemma MailsTellCr(first: Option<string>, second: Option<string>)
    requires IsInnerIn(first) && IsInnerIn(second)
    requires var kept := KeptMails(Cleaned(first), Cleaned(second)); NoCr(kept.0) && NoCr(kept.1)
    ensures IsClean(first) && IsClean(second)
  {
    CleanedTellsCr(first);
    CleanedTellsCr(second);
  }

  /** Contacts with a name, in no text of which a lone carriage return stands at an end. */
  ghost predicate HaveOnlyInnerCr(cards: seq<Card>)
    ensures HaveOnlyInnerCr(cards) ==> forall c | c in cards :: IsStorable(c)
  {
    forall c | c in cards :: IsNamed(c) && HasOnlyInnerCr(c)
  }

  /**
   The round trip is exact on lone carriage returns: where one stands inside a text, the stream
   does not come back, whichever text and contact that is.
   */
  lemma WholeStreamExactly(cards: seq<Card>, decode: Decoder)
    requires HaveOnlyInnerCr(cards)
    requires DecodingBringsNoCr(Unfolded(PrintedAll(cards)), decode)
    ensures Parsed(PrintedAll(cards), decode) == ReadBackCards(cards) <==> forall c | c in cards :: HasNoLoneCr(c)
  {
    if forall c | c in cards :: HasNoLoneCr(c) {
      WholeStreamRoundTrip(cards, decode);
    } else if Parsed(PrintedAll(cards), decode) == ReadBackCards(cards) {
      ParsedHoldsNoCr(PrintedAll(cards), decode);
      forall c | c in cards ensures HasNoLoneCr(c) {
        var i :| 0 <= i < |cards| && cards[i] == c;
        assert HoldsNoCr(ReadBackCards(cards)[i]);
        ReadBackTellsCr(c);
      }
    }
  }

  /** A field is unchanged: absent, or neither blank at an end nor broken by a CR LF pair. */
  predicate IsTrim(text: Option<string>) { text.Some? ==> text.value != "" && Strip(Meant(text.value)) == text.value }

  predicate IsTrimmed(c: Card) {
    && Strip(Meant(c.name)) == c.name
    && IsTrim(c.jobTitle) && IsTrim(c.organization) && IsTrim(c.email) && IsTrim(c.emailSecondary)
    && IsTrim(c.phone) && IsTrim(c.phoneSecondary) && IsTrim(c.website)
    && IsTrim(c.street) && IsTrim(c.postalCode) && IsTrim(c.city) && IsTrim(c.notes)
    && NonEmpty(StripAll(c.tags)) == c.tags
  }

  /**
   Of the contacts whose texts are trimmed, exactly those come back unchanged that hold no
   carriage return, are not in the "UK", have a first address wherever they have a second,
   and no address twice.
   */
  lemma UnchangedExactly(c: Card, decode: Decoder)
    requires IsNamed(c) && IsTrimmed(c)
    requires DecodingBringsNoCr(Unfolded(PrintedAll([c])), decode)
    ensures Parsed(PrintedAll([c]), decode) == [c] <==>
              && HoldsNoCr(c) && c.country != Some("UK")
              && (c.emailSecondary.Some? ==> c.email.Some? && c.email != c.emailSecondary)
  {
    if HoldsNoCr(c) {
      NoCrIsNoLoneCr(c);
      OneCardIsRead(c, decode);
      SingletonsAgree(ReadBackCard(c), c);
      UnchangedReadBack(c);
    } else {
      CrIsNotRead(c, decode);
    }
  }

  lemma NoCrIsNoLoneCr(c: Card)
    requires HoldsNoCr(c)
    ensures HasNoLoneCr(c)
  {
  }

  lemma UnchangedReadBack(c: Card)
    requires IsTrimmed(c)
    ensures ReadBackCard(c) == c <==>
              c.country != Some("UK") && (c.emailSecondary.Some? ==> c.email.Some? && c.email != c.emailSecondary)
  {
  }

  lemma CrIsNotRead(c: Card, decode: Decoder)
    requires IsStorable(c) && !HoldsNoCr(c)
    requires DecodingBringsNoCr(Unfolded(PrintedAll([c])), decode)
    ensures Parsed(PrintedAll([c]), decode) != [c]
  {
    ParsedHoldsNoCr(PrintedAll([c]), decode);
    assert [c][0] == c;
  }

  lemma OneCardIsRead(c: Card, decode: Decoder)
    requires IsPrintable(c)
    ensures Parsed(PrintedAll([c]), decode) == [ReadBackCard(c)]
  {
    WholeStreamRoundTrip([c], decode);
    assert ReadBackCards([c]) == [ReadBackCard(c)];
  }

  lemma SingletonsAgree<T>(a: T, b: T)
    ensures [a] == [b] <==> a == b
  {
    assert [a] == [b] ==> [a][0] == [b][0];
  }
}
