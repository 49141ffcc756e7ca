/**
 Writing a contact as a vCard 3.0 and reading a stream of cards
 (backend/app/importers/vcard.py, `contact_to_vcard` and `parse_vcards`).
 */
module VcardCard {
  import opened Options
  import opened Text
  import opened Calendar
  import opened VcardText
  import opened VcardFold
  import opened VcardLines

  /** The fields a vCard carries: those of a stored contact, and those of a `ParsedVCard`. */
  datatype Card = Card(
    name: string, jobTitle: Option<string>, organization: Option<string>,
    email: Option<string>, emailSecondary: Option<string>,
    phone: Option<string>, phoneSecondary: Option<string>, website: Option<string>,
    street: Option<string>, postalCode: Option<string>, city: Option<string>, country: Option<string>,
    birthday: Option<Date>, notes: Option<string>, tags: seq<string>)

  const EMPTY_CARD: Card :=
    Card("", None, None, None, None, None, None, None, None, None, None, None, None, None, [])

  // ---- Writing ----

  /** One property of a card; at most one parameter is ever written. */
  datatype Property = Property(name: string, param: Option<string>, value: string) {
    function Header(): string {
      match param
      case None => name
      case Some(p) => name + ";" + p
    }

    function Line(): string { Header() + ":" + value }
  }

  /** Python's truth of an optional text. */
  predicate IsFilled(text: Option<string>) { text.Some? && text.value != "" }

  function Single(name: string, param: Option<string>, text: Option<string>): seq<Property> {
    if IsFilled(text) then [Property(name, param, Escape(text.value))] else []
  }

  /** The first word of `s` ends here. */
  function WordEnd(s: string): (n: nat)
    ensures n <= |s|
  {
    if s == "" || IsSpace(s[0]) then 0 else 1 + WordEnd(s[1..])
  }

  /** Family and given name out of a full one: everything after the first word is family. */
  function NameParts(name: string): string {
    var words := Strip(name);
    var given, family := words[..WordEnd(words)], LStrip(words[WordEnd(words)..]);
    if family != "" then Escape(family) + ";" + Escape(given) + ";;;" else Escape(name) + ";;;;"
  }

  function AddressValue(c: Card): string {
    Join(["", "", Escape(c.street.GetOr("")), Escape(c.city.GetOr("")), "", Escape(c.postalCode.GetOr("")),
          Escape(c.country.GetOr(""))], ";")
  }

  function Address(c: Card): seq<Property> {
    if IsFilled(c.street) || IsFilled(c.city) || IsFilled(c.postalCode) || IsFilled(c.country)
    then [Property("ADR", Some("TYPE=WORK"), AddressValue(c))]
    else []
  }

  function Digit(n: int): char
    requires 0 <= n <= 9
  {
    '0' + n as char
  }

  function TwoDigits(n: int): string
    requires 0 <= n <= 99
  {
    [Digit(n / 10), Digit(n % 10)]
  }

  /** `date.isoformat()` */
  function IsoDate(d: Date): string
    requires IsDate(d)
  {
    TwoDigits(d.year / 100) + TwoDigits(d.year % 100) + "-" + TwoDigits(d.month) + "-" + TwoDigits(d.day)
  }

  function Birthday(d: Option<Date>): seq<Property>
    requires d.Some? ==> IsDate(d.value)
  {
    if d.Some? then [Property("BDAY", None, IsoDate(d.value))] else []
  }

  function EscapeTags(tags: seq<string>): (r: seq<string>)
    ensures |r| == |tags| && forall i | 0 <= i < |tags| :: r[i] == Escape(tags[i])
  {
    seq(|tags|, i requires 0 <= i < |tags| => Escape(tags[i]))
  }

  function Categories(tags: seq<string>): seq<Property> {
    if tags == [] then [] else [Property("CATEGORIES", None, Join(EscapeTags(tags), ","))]
  }

  /** What the database holds of a birthday is a date. */
  predicate IsStorable(c: Card) {
    c.birthday.Some? ==> IsDate(c.birthday.value)
  }

  function Work(c: Card): seq<Property> {
    Single("ORG", None, c.organization) + Single("TITLE", None, c.jobTitle)
  }

  function Mails(c: Card): seq<Property> {
    Single("EMAIL", Some("TYPE=INTERNET,PREF"), c.email) + Single("EMAIL", Some("TYPE=INTERNET"), c.emailSecondary)
  }

  function Phones(c: Card): seq<Property> {
    Single("TEL", Some("TYPE=VOICE,PREF"), c.phone) + Single("TEL", Some("TYPE=CELL"), c.phoneSecondary)
  }

  function Location(c: Card): seq<Property> {
    Single("URL", None, c.website) + Address(c)
  }

  function Rest(c: Card): seq<Property>
    requires IsStorable(c)
  {
    Birthday(c.birthday) + Categories(c.tags) + Single("NOTE", None, c.notes)
  }

  /** The properties of a card between its name and its end, in the order they are written. */
  function Details(c: Card): seq<Property>
    requires IsStorable(c)
  {
    Work(c) + Mails(c) + Phones(c) + Location(c) + Rest(c)
  }

  function Naming(c: Card): seq<Property> {
    [Property("VERSION", None, "3.0"), Property("FN", None, Escape(c.name)), Property("N", None, NameParts(c.name))]
  }

  function Properties(c: Card): seq<Property>
    requires IsStorable(c)
  {
    Marked(Naming(c) + Details(c))
  }

  /** The properties of a whole card, between its marks. */
  function Marked(middle: seq<Property>): seq<Property> {
    [Property("BEGIN", None, "VCARD")] + middle + [Property("END", None, "VCARD")]
  }

  function Lines(properties: seq<Property>): (r: seq<string>)
    ensures |r| == |properties| && forall i | 0 <= i < |properties| :: r[i] == properties[i].Line()
  {
    seq(|properties|, i requires 0 <= i < |properties| => properties[i].Line())
  }

  /** `contact_to_vcard` */
  function Printed(c: Card): string
    requires IsStorable(c)
  {
    Written(Lines(Properties(c)))
  }

  /** `contacts_to_vcards` */
  function PrintedAll(cards: seq<Card>): string
    requires forall c | c in cards :: IsStorable(c)
  {
    if cards == [] then "" else Printed(cards[0]) + PrintedAll(cards[1..])
  }

  // ---- Reading ----

  /** Quoted-printable decoding under a charset: a library call. */
  type Decoder = (string, string) -> string

  /** `_qp_charset`: the charset of a quoted-printable value, or `None` for a plain one. */
  function QpCharset(params: seq<string>): Option<string> {
    if forall i | 0 <= i < |params| :: !IsQuotedPrintable(params[i]) then None
    else Some(NamedCharset(params))
  }

  function NamedCharset(params: seq<string>): string {
    if params == [] then "UTF-8"
    else if "CHARSET=" <= params[0] then params[0][8..]
    else NamedCharset(params[1..])
  }

  /** `_text` */
  function TextOf(raw: string, charset: Option<string>, decode: Decoder): string {
    Strip(Unescaped(if charset.Some? then decode(raw, charset.value) else raw))
  }

  /** `_parts` */
  function PartsOf(raw: string, delimiter: char, charset: Option<string>, decode: Decoder): (r: seq<string>)
    ensures r != []
  {
    var pieces := Pieces(raw, delimiter);
    seq(|pieces|, i requires 0 <= i < |pieces| => TextOf(pieces[i], charset, decode))
  }

  predicate IsPreferred(params: seq<string>) {
    exists i | 0 <= i < |params| :: Occurs("PREF", params[i])
  }

  predicate IsCell(params: seq<string>) {
    exists i | 0 <= i < |params| :: Occurs("CELL", params[i])
  }

  function OrNone(text: string): Option<string> {
    if text == "" then None else Some(text)
  }

  /** `_COUNTRY_MAP.get(lowered)` */
  function CountryCode(lowered: string): Option<string> {
    match lowered
    case "austria" => Some("AT")
    case "\U{f6}sterreich" => Some("AT")
    case "germany" => Some("DE")
    case "deutschland" => Some("DE")
    case "switzerland" => Some("CH")
    case "schweiz" => Some("CH")
    case "united states" => Some("US")
    case "usa" => Some("US")
    case "united kingdom" => Some("GB")
    case "uk" => Some("GB")
    case "great britain" => Some("GB")
    case "liechtenstein" => Some("LI")
    case "italy" => Some("IT")
    case "italien" => Some("IT")
    case "france" => Some("FR")
    case "frankreich" => Some("FR")
    case "netherlands" => Some("NL")
    case "niederlande" => Some("NL")
    case "belgium" => Some("BE")
    case "belgien" => Some("BE")
    case "spain" => Some("ES")
    case "spanien" => Some("ES")
    case "portugal" => Some("PT")
    case "canada" => Some("CA")
    case "kanada" => Some("CA")
    case "australia" => Some("AU")
    case "australien" => Some("AU")
    case "new zealand" => Some("NZ")
    case "ireland" => Some("IE")
    case "irland" => Some("IE")
    case "poland" => Some("PL")
    case "polen" => Some("PL")
    case "czech republic" => Some("CZ")
    case "czechia" => Some("CZ")
    case "tschechien" => Some("CZ")
    case _ => FurtherCode(lowered)
  }

  /** The rest of the table. */
  function FurtherCode(lowered: string): Option<string> {
    match lowered
    case "slovakia" => Some("SK")
    case "slowakei" => Some("SK")
    case "slovenia" => Some("SI")
    case "slowenien" => Some("SI")
    case "hungary" => Some("HU")
    case "ungarn" => Some("HU")
    case "croatia" => Some("HR")
    case "kroatien" => Some("HR")
    case "sweden" => Some("SE")
    case "schweden" => Some("SE")
    case "norway" => Some("NO")
    case "norwegen" => Some("NO")
    case "denmark" => Some("DK")
    case "d\U{e4}nemark" => Some("DK")
    case "finland" => Some("FI")
    case "finnland" => Some("FI")
    case "greece" => Some("GR")
    case "griechenland" => Some("GR")
    case "luxembourg" => Some("LU")
    case "luxemburg" => Some("LU")
    case "romania" => Some("RO")
    case "rum\U{e4}nien" => Some("RO")
    case "bulgaria" => Some("BG")
    case "bulgarien" => Some("BG")
    case "cyprus" => Some("CY")
    case "zypern" => Some("CY")
    case "malta" => Some("MT")
    case "estonia" => Some("EE")
    case "estland" => Some("EE")
    case "latvia" => Some("LV")
    case "lettland" => Some("LV")
    case "lithuania" => Some("LT")
    case "litauen" => Some("LT")
    case "japan" => Some("JP")
    case "china" => Some("CN")
    case "india" => Some("IN")
    case "indien" => Some("IN")
    case "brazil" => Some("BR")
    case "brasilien" => Some("BR")
    case "mexico" => Some("MX")
    case "mexiko" => Some("MX")
    case "singapore" => Some("SG")
    case "singapur" => Some("SG")
    case _ => None
  }

  /**
   `s.lower()`, as far as a name in `CountryCode` can tell: every character whose lower case
   holds a character of some name.
   */
  function Lower(s: string): string {
    if s == "" then "" else LowerChar(s[0]) + Lower(s[1..])
  }

  function LowerChar(c: char): string {
    if 'A' <= c <= 'Z' then [c - 'A' + 'a']
    else match c
      case '\U{c4}' => "\U{e4}"
      case '\U{d6}' => "\U{f6}"
      case '\U{dc}' => "\U{fc}"
      case '\U{130}' => "i\U{307}"
      case '\U{212a}' => "k"
      case _ => [c]
  }

  predicate IsLetter(c: char) { 'A' <= c <= 'Z' || 'a' <= c <= 'z' }

  /** `_normalize_country` */
  function NormalizeCountry(raw: string): Option<string> {
    var cleaned := Strip(raw);
    if raw == "" then None
    else if CountryCode(Lower(cleaned)).Some? then CountryCode(Lower(cleaned))
    else if |cleaned| == 2 && IsLetter(cleaned[0]) && IsLetter(cleaned[1]) then Some(Upper(cleaned))
    else None
  }

  predicate IsDigit(c: char) { '0' <= c <= '9' }

  function Number(s: string): int
    requires forall i | 0 <= i < |s| :: IsDigit(s[i])
  {
    if s == "" then 0 else 10 * Number(s[..|s| - 1]) + (s[|s| - 1] as int - '0' as int)
  }

  /** A birthday as YYYY-MM-DD or YYYYMMDD; anything else is none. */
  function ParseDate(text: string): Option<Date> {
    var clean := ReplaceChar(text, '-', "");
    if |clean| == 8 && forall i | 0 <= i < 8 :: IsDigit(clean[i])
    then
      var d := Date(Number(clean[..4]), Number(clean[4..6]), Number(clean[6..]));
      if IsDate(d) then Some(d) else None
    else None
  }

  datatype Mail = Mail(preferred: bool, address: string)

  datatype Phone = Phone(preferred: bool, cell: bool, number: string)

  /** The addresses of the preferred mails, or of the others, in file order. */
  function Addresses(mails: seq<Mail>, preferred: bool): seq<string> {
    if mails == [] then []
    else (if mails[0].preferred == preferred then [mails[0].address] else []) + Addresses(mails[1..], preferred)
  }

  /** `list(dict.fromkeys(s))`: the first of each. */
  function Distinct<T(==)>(s: seq<T>): seq<T> {
    if s == [] then []
    else
      var init := Distinct(s[..|s| - 1]);
      if s[|s| - 1] in init then init else init + [s[|s| - 1]]
  }

  function At(s: seq<string>, i: nat): Option<string> {
    if i < |s| then Some(s[i]) else None
  }

  /** `_pick_emails`: a stable sort puts the preferred ones first. */
  function PickEmails(mails: seq<Mail>): (Option<string>, Option<string>) {
    var ordered := Distinct(Addresses(mails, true) + Addresses(mails, false));
    (At(ordered, 0), At(ordered, 1))
  }

  function FirstIndex(phones: seq<Phone>, wanted: Phone -> bool): (r: Option<nat>)
    ensures r.Some? ==> r.value < |phones|
  {
    if phones == [] then None
    else if wanted(phones[0]) then Some(0)
    else match FirstIndex(phones[1..], wanted)
      case None => None
      case Some(i) => Some(i + 1)
  }

  function Numbers(phones: seq<Phone>): (r: seq<string>)
    ensures |r| == |phones| && forall i | 0 <= i < |phones| :: r[i] == phones[i].number
  {
    seq(|phones|, i requires 0 <= i < |phones| => phones[i].number)
  }

  /** `_pick_phones`: the preferred number, else the first that is no mobile; the next is secondary. */
  function PickPhones(phones: seq<Phone>): (Option<string>, Option<string>) {
    var preferred := FirstIndex(phones, (p: Phone) => p.preferred);
    var primary := if preferred.Some? then preferred else FirstIndex(phones, (p: Phone) => !p.cell);
    match primary
    case Some(i) => (Some(phones[i].number), At(Numbers(phones[..i] + phones[i + 1..]), 0))
    case None => (At(Numbers(phones), 1), At(Numbers(phones), 0))
  }

  /** Where the parser stands: the card being read and what it has gathered for it. */
  datatype Open = Open(
    card: Card, fallback: Option<string>, mails: seq<Mail>, phones: seq<Phone>, addressPreferred: Option<bool>)

  datatype Reading = Reading(open: Option<Open>, results: seq<Card>)

  const FRESH: Open := Open(EMPTY_CARD, None, [], [], None)

  /** The address of an ADR value, taken whole or not at all. */
  function TakeAddress(o: Open, parts: seq<string>, preferred: bool): Open
    requires |parts| >= 7
  {
    var street, city, postal, rawCountry := parts[2], parts[3], parts[5], parts[6];
    var wanted := o.addressPreferred.None? || (preferred && !o.addressPreferred.value);
    if wanted && (street != "" || city != "" || postal != "" || rawCountry != "") then
      var country := NormalizeCountry(rawCountry);
      var cityLine :=
        if rawCountry != "" && country.None? then if city != "" then city + ", " + rawCountry else rawCountry
        else city;
      o.(card := o.card.(street := OrNone(street), city := OrNone(cityLine), postalCode := OrNone(postal), country := country),
         addressPreferred := Some(preferred))
    else o
  }

  /** The name of an N value: given name first. */
  function NameOf(parts: seq<string>): string
    requires parts != []
  {
    Strip((if |parts| > 1 then parts[1] else "") + " " + parts[0])
  }

  function NonEmpty(parts: seq<string>): seq<string> {
    if parts == [] then [] else (if parts[0] == "" then [] else [parts[0]]) + NonEmpty(parts[1..])
  }

  /** The properties that are read. */
  datatype Kind = FullName | NameOfParts | Unit | Role | Email | Tel | Url | Adr | Born | Note | Tagged | Other

  function KindOf(name: string): Kind {
    match name
    case "FN" => FullName
    case "N" => NameOfParts
    case "ORG" => Unit
    case "TITLE" => Role
    case "EMAIL" => Email
    case "TEL" => Tel
    case "URL" => Url
    case "ADR" => Adr
    case "BDAY" => Born
    case "NOTE" => Note
    case "CATEGORIES" => Tagged
    case _ => Other
  }

  /** What one property inside a card does to it. */
  function TakeProperty(o: Open, name: string, params: seq<string>, value: string, decode: Decoder): Open {
    TakeKind(o, KindOf(name), params, value, decode)
  }

  function TakeKind(o: Open, kind: Kind, params: seq<string>, value: string, decode: Decoder): Open {
    var charset := QpCharset(params);
    var text := TextOf(value, charset, decode);
    match kind
    case FullName => o.(card := o.card.(name := text))
    case NameOfParts =>
      var full := NameOf(PartsOf(value, ';', charset, decode));
      if full != "" then o.(fallback := Some(full)) else o
    case Unit =>
      var unit := PartsOf(value, ';', charset, decode)[0];
      if unit != "" then o.(card := o.card.(organization := Some(unit))) else o
    case Role => o.(card := o.card.(jobTitle := OrNone(text)))
    case Email => if text != "" then o.(mails := o.mails + [Mail(IsPreferred(params), text)]) else o
    case Tel => if text != "" then o.(phones := o.phones + [Phone(IsPreferred(params), IsCell(params), text)]) else o
    case Url => o.(card := o.card.(website := OrNone(text)))
    case Adr => TakeAddress(o, PartsOf(value, ';', charset, decode) + ["", "", "", "", "", "", ""], IsPreferred(params))
    case Born => if ParseDate(text).Some? then o.(card := o.card.(birthday := ParseDate(text))) else o
    case Note => if text != "" then o.(card := o.card.(notes := Some(text))) else o
    case Tagged => o.(card := o.card.(tags := o.card.tags + NonEmpty(PartsOf(value, ',', charset, decode))))
    case Other => o
  }

  /** The finished card: a nameless one takes the name of its N property. */
  function Close(o: Open): Card {
    var named := if o.card.name == "" && o.fallback.Some? then o.card.(name := o.fallback.value) else o.card;
    var (email, emailSecondary) := PickEmails(o.mails);
    var (phone, phoneSecondary) := PickPhones(o.phones);
    named.(email := email, emailSecondary := emailSecondary, phone := phone, phoneSecondary := phoneSecondary)
  }

  function HeaderParts(line: string): (parts: seq<string>)
    ensures parts != []
  {
    SplitOn(Upper(Before(line, ':')), ';')
  }

  function ValueOf(line: string): string {
    if |Before(line, ':')| < |line| then line[|Before(line, ':')| + 1..] else ""
  }

  function TakeLine(r: Reading, line: string, decode: Decoder): Reading {
    if Upper(line) == "BEGIN:VCARD" then r.(open := Some(FRESH))
    else if Upper(line) == "END:VCARD" then
      Reading(None, if r.open.Some? then r.results + [Close(r.open.value)] else r.results)
    else if r.open.None? || ':' !in line then r
    else
      var parts := HeaderParts(line);
      r.(open := Some(TakeProperty(r.open.value, AfterLast(parts[0], '.'), parts[1..], ValueOf(line), decode)))
  }

  function TakeLines(r: Reading, lines: seq<string>, decode: Decoder): Reading
    decreases |lines|
  {
    if lines == [] then r else TakeLines(TakeLine(r, lines[0], decode), lines[1..], decode)
  }

  /** What `ParseVcards` computes. */
  function Parsed(text: string, decode: Decoder): seq<Card> {
    TakeLines(Reading(None, []), Unfolded(text), decode).results
  }

  method ParseVcards(text: string, decode: Decoder) returns (results: seq<Card>)
    ensures results == Parsed(text, decode)
  {
    var lines := UnfoldLines(text);
    results := [];
    var current: Option<Open> := None;
    var i := 0;
    while i < |lines|
      invariant 0 <= i <= |lines|
      invariant TakeLines(Reading(current, results), lines[i..], decode)
             == TakeLines(Reading(None, []), lines, decode)
    {
      var line := lines[i];
      assert lines[i..][0] == line && lines[i..][1..] == lines[i + 1..];
      i := i + 1;
      if Upper(line) == "BEGIN:VCARD" {
        current := Some(FRESH);
        continue;
      }
      if Upper(line) == "END:VCARD" {
        if current.Some? {
          results := results + [Close(current.value)];
        }
        current := None;
        continue;
      }
      if current.None? || ':' !in line {
        continue;
      }
      var parts := HeaderParts(line);
      current := Some(TakeProperty(current.value, AfterLast(parts[0], '.'), parts[1..], ValueOf(line), decode));
    }
  }
}
