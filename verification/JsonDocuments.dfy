/** JSON texts as RFC 8259 has them: values with any blanks or comments between their parts, strings
    with any choice of escapes, numbers with fractions and exponents, members in any order and with
    repeated keys. Beyond the standard, as the parser allows: comments that run to the end of a line,
    single quotes, and a comma after the last item. */
module JsonDocuments {
  import opened Text
  import opened JsonStream
  import opened JsonGrammar

  // ---------- blanks and comments ----------

  /** Blanks, and comments each closed by the end of its line. */
  predicate Gap(g: string)
    decreases |g|, 1
  {
    g == "" || (IsSpace(g[0]) && Gap(g[1..])) || (|g| >= 2 && g[0] == '/' && g[1] == '/' && Comment(g[2..]))
  }

  /** The rest of a comment, the end of its line and the gap after it. */
  predicate Comment(g: string)
    decreases |g|, 2
  {
    g != "" && if g[0] == '\n' || g[0] == '\r' then Gap(g) else Comment(g[1..])
  }

  // ---------- strings ----------

  datatype Piece = Plain(c: char) | Escaped(letter: char) | Code(digits: string)

  predicate ProperPiece(p: Piece, quote: char) {
    match p
    case Plain(c) => c != quote && c != '\\'
    case Escaped(letter) => letter == quote || letter in "\\/bfnrt"
    case Code(digits) => |digits| == 4 && forall d :: d in digits ==> IsHex(d)
  }

  function PieceText(p: Piece): string {
    match p
    case Plain(c) => [c]
    case Escaped(letter) => ['\\', letter]
    case Code(digits) => "\\u" + digits
  }

  function HexValue(digits: string): nat
    requires forall d :: d in digits ==> IsHex(d)
  {
    if digits == "" then 0
    else
      assert digits[|digits| - 1] in digits;
      HexValue(digits[..|digits| - 1]) * 16 + HexDigit(digits[|digits| - 1])
  }

  /** The character a piece stands for. A code above 255 keeps its low byte, which is not what the
      standard asks for. */
  function PieceMeaning(p: Piece, quote: char): char
    requires ProperPiece(p, quote)
  {
    match p
    case Plain(c) => c
    case Escaped(letter) =>
      (match letter
       case 'b' => 8 as char
       case 'f' => 12 as char
       case 'n' => '\n'
       case 'r' => '\r'
       case 't' => '\t'
       case _ => letter)
    case Code(digits) => (HexValue(digits) % 256) as char
  }

  datatype Spelling = Spelling(quote: char, pieces: seq<Piece>)

  predicate ProperSpelling(s: Spelling) {
    (s.quote == '"' || s.quote == '\'') && forall i :: 0 <= i < |s.pieces| ==> ProperPiece(s.pieces[i], s.quote)
  }

  function PiecesText(ps: seq<Piece>): string {
    if ps == [] then "" else PieceText(ps[0]) + PiecesText(ps[1..])
  }

  function SpellingText(s: Spelling): string {
    [s.quote] + (PiecesText(s.pieces) + [s.quote])
  }

  function SpellingMeaning(s: Spelling): string
    requires ProperSpelling(s)
  {
    seq(|s.pieces|, i requires 0 <= i < |s.pieces| => PieceMeaning(s.pieces[i], s.quote))
  }

  // ---------- numbers ----------

  datatype Exponent = Exponent(mark: char, sign: string, digits: string)
  datatype Numeral = Numeral(negative: bool, whole: string, fraction: Option<string>, exponent: Option<Exponent>)

  predicate AllDigits(w: string) {
    w != "" && forall c :: c in w ==> IsDigit(c)
  }

  predicate ProperNumeral(n: Numeral) {
    && AllDigits(n.whole)
    && (n.fraction.Some? ==> AllDigits(n.fraction.value))
    && (n.exponent.Some? ==> ProperExponent(n.exponent.value))
  }

  predicate ProperExponent(e: Exponent) {
    (e.mark == 'e' || e.mark == 'E') && (e.sign == "" || e.sign == "+" || e.sign == "-") && AllDigits(e.digits)
  }

  function Unsigned(n: Numeral): string {
    n.whole + ((if n.fraction.Some? then "." + n.fraction.value else "") + ExponentText(n.exponent))
  }

  function ExponentText(e: Option<Exponent>): string {
    if e.Some? then [e.value.mark] + (e.value.sign + e.value.digits) else ""
  }

  function NumeralText(n: Numeral): string {
    (if n.negative then "-" else "") + Unsigned(n)
  }

  /** An integer is its value; with a fraction or an exponent the numeral stands for itself. */
  function NumeralMeaning(n: Numeral): Number
    requires ProperNumeral(n)
  {
    if n.fraction.Some? || n.exponent.Some? then Fraction(NumeralText(n))
    else Integer(if n.negative then -(DigitsValue(n.whole) as int) else DigitsValue(n.whole))
  }

  // ---------- documents ----------

  datatype Doc =
    | NullDoc
    | BoolDoc(b: bool)
    | NumberDoc(numeral: Numeral)
    | StringDoc(spelling: Spelling)
    | ArrayDoc(inner: string, items: seq<Item>, trailing: Option<string>)
    | ObjectDoc(inner: string, members: seq<Member>, trailing: Option<string>)

  /** A value with the gaps around it. */
  datatype Item = Item(before: string, doc: Doc, after: string)

  /** A key with the gaps around it, and the value with its gaps. */
  datatype Member = Member(before: string, key: Spelling, colon: string, item: Item)

  predicate ProperGaps(inner: string, trailing: Option<string>) {
    Gap(inner) && (trailing.Some? ==> Gap(trailing.value))
  }

  predicate ProperItem(i: Item) {
    Gap(i.before) && Proper(i.doc) && Gap(i.after)
  }

  predicate ProperMember(m: Member) {
    Gap(m.before) && ProperSpelling(m.key) && Gap(m.colon) && ProperItem(m.item)
  }

  predicate Proper(d: Doc) {
    match d
    case NumberDoc(numeral) => ProperNumeral(numeral)
    case StringDoc(spelling) => ProperSpelling(spelling)
    case ArrayDoc(inner, items, trailing) =>
      ProperGaps(inner, trailing) && forall i :: 0 <= i < |items| ==> ProperItem(items[i])
    case ObjectDoc(inner, members, trailing) =>
      ProperGaps(inner, trailing) && forall i :: 0 <= i < |members| ==> ProperMember(members[i])
    case _ => true
  }

  /** The closing bracket, with a comma and a gap before it or not. */
  function Closing(trailing: Option<string>, close: char): string {
    if trailing.Some? then "," + (trailing.value + [close]) else [close]
  }

  function Write(d: Doc): string
    decreases d, 1
  {
    match d
    case NullDoc => "null"
    case BoolDoc(b) => if b then "true" else "false"
    case NumberDoc(numeral) => NumeralText(numeral)
    case StringDoc(spelling) => SpellingText(spelling)
    case ArrayDoc(inner, items, trailing) =>
      "[" + (if items == [] then inner + "]" else items[0].before + ItemsText(items, Closing(trailing, ']')))
    case ObjectDoc(inner, members, trailing) =>
      "{" + (if members == [] then inner + "}" else members[0].before + MembersText(members, Closing(trailing, '}')))
  }

  /** The items from the first value on, and what closes them. */
  function ItemsText(items: seq<Item>, close: string): string
    requires items != []
    decreases items, 0
  {
    ItemText(items[0], ItemsRest(items, close))
  }

  /** One value and what follows it. */
  function ItemText(item: Item, rest: string): string
    decreases item, 0
  {
    Write(item.doc) + (item.after + rest)
  }

  function ItemsRest(items: seq<Item>, close: string): string
    requires items != []
    decreases items[1..], 2
  {
    if |items| == 1 then close else "," + (items[1].before + ItemsText(items[1..], close))
  }

  /** The members from the first key on, and what closes them. */
  function MembersText(members: seq<Member>, close: string): string
    requires members != []
    decreases members, 0
  {
    MemberText(members[0], MembersRest(members, close))
  }

  /** One member from its key on, and what follows it. */
  function MemberText(m: Member, rest: string): string
    decreases m, 0
  {
    SpellingText(m.key) + (m.colon + (":" + (m.item.before + (Write(m.item.doc) + (m.item.after + rest)))))
  }

  function MembersRest(members: seq<Member>, close: string): string
    requires members != []
    decreases members[1..], 2
  {
    if |members| == 1 then close else "," + (members[1].before + MembersText(members[1..], close))
  }

  /** The tree a document stands for. Of equal keys the last one counts. */
  function Meaning(d: Doc): Value
    requires Proper(d)
    decreases d, 1
  {
    match d
    case NullDoc => JNull
    case BoolDoc(b) => JBool(b)
    case NumberDoc(numeral) => JNumber(NumeralMeaning(numeral))
    case StringDoc(spelling) => JString(SpellingMeaning(spelling))
    case ArrayDoc(_, items, _) => JArray(ItemsMeaning(items))
    case ObjectDoc(_, members, _) => JObject(MembersMeaning([], members))
  }

  function ItemsMeaning(items: seq<Item>): (r: seq<Value>)
    requires forall i :: 0 <= i < |items| ==> ProperItem(items[i])
    decreases items, 0
  {
    if items == [] then []
    else
      assert ProperItem(items[0]);
      [Meaning(items[0].doc)] + ItemsMeaning(items[1..])
  }

  function MembersMeaning(done: seq<Pair<Value>>, members: seq<Member>): seq<Pair<Value>>
    requires forall i :: 0 <= i < |members| ==> ProperMember(members[i])
    decreases members, 0
  {
    if members == [] then done
    else
      assert ProperMember(members[0]) && ProperItem(members[0].item);
      MembersMeaning(Put(done, SpellingMeaning(members[0].key), Meaning(members[0].item.doc)), members[1..])
  }
}
