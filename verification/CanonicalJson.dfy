/**
 Canonical JSON: the recursive printer with sorted keys that every trust-critical hash is
 taken over. A decoder shows that the printed form determines the value, and the printed
 form survives UTF-8 encoding, so that only the digest itself can collide.
 */
module CanonicalJson {
  import opened Wrappers
  import opened Utf16
  import opened Sorting

  const MAX_SAFE_INTEGER := 9007199254740991
  type SafeInt = n: int | -MAX_SAFE_INTEGER <= n <= MAX_SAFE_INTEGER

  datatype Member = Member(key: Text, value: Json)

  /** A JSON value. Members stand in insertion order. */
  datatype Json =
    | Null
    | Bool(b: bool)
    | Num(n: SafeInt)
    | Str(s: Text)
    | Arr(items: seq<Json>)
    | Obj(members: seq<Member>)

  function KeyOf(m: Member): Text { m.key }

  /** What every JavaScript object guarantees: no key occurs twice, at any depth. */
  ghost predicate Plain(v: Json) {
    match v
    case Arr(items) => forall i :: 0 <= i < |items| ==> Plain(items[i])
    case Obj(members) =>
      && DistinctBy(members, KeyOf)
      && forall i :: 0 <= i < |members| ==> Plain(members[i].value)
    case _ => true
  }

  // --- strings -------------------------------------------------------------------------

  const QUOTE: CodeUnit := 34
  const COMMA: CodeUnit := 44
  const COLON: CodeUnit := 58
  const LBRACKET: CodeUnit := 91
  const BACKSLASH: CodeUnit := 92
  const RBRACKET: CodeUnit := 93
  const LETTER_U: CodeUnit := 117
  const LBRACE: CodeUnit := 123
  const RBRACE: CodeUnit := 125

  predicate IsLead(c: CodeUnit) { 0xD800 <= c <= 0xDBFF }

  predicate IsTrail(c: CodeUnit) { 0xDC00 <= c <= 0xDFFF }

  function HexDigit(d: nat): CodeUnit
    requires d < 16
  {
    if d < 10 then 48 + d else 87 + d
  }

  function HexValue(c: CodeUnit): (r: Option<nat>)
    ensures r.Some? ==> r.value < 16
  {
    if 48 <= c <= 57 then Some(c - 48) else if 97 <= c <= 102 then Some(c - 87) else None
  }

  /** `\uXXXX` with lower-case digits. */
  function UnicodeEscape(c: CodeUnit): Text {
    [BACKSLASH, LETTER_U, HexDigit(c / 4096), HexDigit(c / 256 % 16), HexDigit(c / 16 % 16), HexDigit(c % 16)]
  }

  /** The letter of the two-character escape of `c`, if it has one. */
  function ShortEscape(c: CodeUnit): Option<CodeUnit> {
    if c == 8 then Some(98) else if c == 9 then Some(116) else if c == 10 then Some(110)
    else if c == 12 then Some(102) else if c == 13 then Some(114)
    else if c == QUOTE || c == BACKSLASH then Some(c) else None
  }

  function ShortTarget(e: CodeUnit): Option<CodeUnit> {
    if e == 98 then Some(8) else if e == 116 then Some(9) else if e == 110 then Some(10)
    else if e == 102 then Some(12) else if e == 114 then Some(13)
    else if e == QUOTE || e == BACKSLASH then Some(e) else None
  }

  function EscapeUnit(c: CodeUnit): Text {
    match ShortEscape(c)
    case Some(e) => [BACKSLASH, e]
    case None => if c < 0x20 || IsLead(c) || IsTrail(c) then UnicodeEscape(c) else [c]
  }

  predicate StartsWithPair(s: Text) {
    |s| >= 2 && IsLead(s[0]) && IsTrail(s[1])
  }

  /** The body that `JSON.stringify` prints between the quotes: lone surrogates are escaped. */
  function Escape(s: Text): Text {
    if s == [] then []
    else if StartsWithPair(s) then [s[0], s[1]] + Escape(s[2..])
    else EscapeUnit(s[0]) + Escape(s[1..])
  }

  function Quote(s: Text): Text { [QUOTE] + Escape(s) + [QUOTE] }

  // --- printing ------------------------------------------------------------------------

  function PrintNumber(n: SafeInt): Text {
    if n < 0 then [MINUS] + Decimal(-n) else Decimal(n)
  }

  /** Prints a value with its members in the order in which they stand. */
  function Print(v: Json): Text
    decreases v, 1
  {
    match v
    case Null => Lit("null")
    case Bool(b) => if b then Lit("true") else Lit("false")
    case Num(n) => PrintNumber(n)
    case Str(s) => Quote(s)
    case Arr(items) => [LBRACKET] + PrintItems(items) + [RBRACKET]
    case Obj(members) => [LBRACE] + PrintMembers(members) + [RBRACE]
  }

  function PrintItems(items: seq<Json>): Text
    decreases items, 0
  {
    if items == [] then []
    else if |items| == 1 then Print(items[0])
    else Print(items[0]) + [COMMA] + PrintItems(items[1..])
  }

  function PrintMembers(members: seq<Member>): Text
    decreases members, 0
  {
    if members == [] then []
    else if |members| == 1 then PrintMember(members[0])
    else PrintMember(members[0]) + [COMMA] + PrintMembers(members[1..])
  }

  function PrintMember(m: Member): Text
    decreases m, 2
  {
    Quote(m.key) + [COLON] + Print(m.value)
  }

  predicate MemberLeq(a: Member, b: Member) { !Less(b.key, a.key) }

  /** The value with the members of every object sorted by key. */
  function Normalize(v: Json): Json
    decreases v, 1
  {
    match v
    case Arr(items) => Arr(NormalizeItems(items))
    case Obj(members) => Obj(Sort(NormalizeMembers(members), MemberLeq))
    case _ => v
  }

  function NormalizeItems(items: seq<Json>): (r: seq<Json>)
    ensures |r| == |items|
    ensures forall i :: 0 <= i < |items| ==> r[i] == Normalize(items[i])
    decreases items, 0
  {
    if items == [] then [] else [Normalize(items[0])] + NormalizeItems(items[1..])
  }

  function NormalizeMembers(members: seq<Member>): (r: seq<Member>)
    ensures |r| == |members|
    ensures forall i :: 0 <= i < |members| ==>
      r[i].key == members[i].key && r[i].value == Normalize(members[i].value)
    decreases members, 0
  {
    if members == [] then []
    else [Member(members[0].key, Normalize(members[0].value))] + NormalizeMembers(members[1..])
  }

  /** `canonicalize`. */
  function Canonicalize(v: Json): Text { Print(Normalize(v)) }

  // --- decoding ------------------------------------------------------------------------

  datatype Parsed<T> = Fail | Done(value: T, rest: Text)

  function Prepend(c: CodeUnit, p: Parsed<Text>): Parsed<Text> {
    match p
    case Fail => Fail
    case Done(s, rest) => Done([c] + s, rest)
  }

  function Hex4(a: CodeUnit, b: CodeUnit, c: CodeUnit, d: CodeUnit): Option<CodeUnit> {
    match (HexValue(a), HexValue(b), HexValue(c), HexValue(d))
    case (Some(h), Some(i), Some(j), Some(k)) => Some(h * 4096 + i * 256 + j * 16 + k)
    case _ => None
  }

  /** Reads one code unit of a string body, escaped or not. */
  function ReadUnit(t: Text): (r: Parsed<CodeUnit>)
    ensures r.Done? ==> |r.rest| < |t|
  {
    if t == [] then Fail
    else if t[0] != BACKSLASH then Done(t[0], t[1..])
    else if |t| >= 2 && ShortTarget(t[1]).Some? then Done(ShortTarget(t[1]).value, t[2..])
    else if |t| >= 6 && t[1] == LETTER_U && Hex4(t[2], t[3], t[4], t[5]).Some? then
      Done(Hex4(t[2], t[3], t[4], t[5]).value, t[6..])
    else Fail
  }

  /** Reads a string body up to and including its closing quote. */
  function Unescape(t: Text): (r: Parsed<Text>)
    ensures r.Done? ==> |r.rest| < |t|
  {
    if t == [] then Fail
    else if t[0] == QUOTE then Done([], t[1..])
    else
      match ReadUnit(t)
      case Fail => Fail
      case Done(c, rest) => Prepend(c, Unescape(rest))
  }

  function DigitRun(t: Text): (k: nat)
    ensures k <= |t| && AllDigits(t[..k])
  {
    if t == [] || !IsDigit(t[0]) then 0
    else
      var k := 1 + DigitRun(t[1..]);
      assert t[..k] == [t[0]] + t[1..][..k - 1];
      k
  }

  function ParseNumber(t: Text): (r: Parsed<Json>)
    ensures r.Done? ==> |r.rest| < |t|
  {
    var negative := t != [] && t[0] == MINUS;
    var digits := if negative then t[1..] else t;
    var k := DigitRun(digits);
    var n := DigitsValue(digits[..k]);
    if k == 0 || n > MAX_SAFE_INTEGER then Fail
    else Done(Num(if negative then 0 - n as int else n), digits[k..])
  }

  function ParseValue(t: Text): (r: Parsed<Json>)
    ensures r.Done? ==> |r.rest| < |t|
    decreases |t|, 1
  {
    if t == [] then Fail
    else if t[0] == QUOTE then
      (match Unescape(t[1..])
       case Fail => Fail
       case Done(s, rest) => Done(Str(s), rest))
    else if t[0] == LBRACKET then
      if |t| > 1 && t[1] == RBRACKET then Done(Arr([]), t[2..])
      else (match ParseItems(t[1..])
            case Fail => Fail
            case Done(items, rest) => Done(Arr(items), rest))
    else if t[0] == LBRACE then
      if |t| > 1 && t[1] == RBRACE then Done(Obj([]), t[2..])
      else (match ParseMembers(t[1..])
            case Fail => Fail
            case Done(members, rest) => Done(Obj(members), rest))
    else if Lit("null") <= t then Done(Null, t[4..])
    else if Lit("true") <= t then Done(Bool(true), t[4..])
    else if Lit("false") <= t then Done(Bool(false), t[5..])
    else ParseNumber(t)
  }

  /** Reads a non-empty list of items and its closing bracket. */
  function ParseItems(t: Text): (r: Parsed<seq<Json>>)
    ensures r.Done? ==> |r.rest| < |t|
    decreases |t|, 2
  {
    match ParseValue(t)
    case Fail => Fail
    case Done(v, rest) =>
      if rest != [] && rest[0] == RBRACKET then Done([v], rest[1..])
      else if rest != [] && rest[0] == COMMA then
        (match ParseItems(rest[1..])
         case Fail => Fail
         case Done(items, rest') => Done([v] + items, rest'))
      else Fail
  }

  function ParseMember(t: Text): (r: Parsed<Member>)
    ensures r.Done? ==> |r.rest| < |t|
    decreases |t|, 2
  {
    if t == [] || t[0] != QUOTE then Fail
    else
      match Unescape(t[1..])
      case Fail => Fail
      case Done(key, rest) =>
        if rest == [] || rest[0] != COLON then Fail
        else
          match ParseValue(rest[1..])
          case Fail => Fail
          case Done(v, rest') => Done(Member(key, v), rest')
  }

  /** Reads a non-empty list of members and its closing brace. */
  function ParseMembers(t: Text): (r: Parsed<seq<Member>>)
    ensures r.Done? ==> |r.rest| < |t|
    decreases |t|, 3
  {
    match ParseMember(t)
    case Fail => Fail
    case Done(m, rest) =>
      if rest != [] && rest[0] == RBRACE then Done([m], rest[1..])
      else if rest != [] && rest[0] == COMMA then
        (match ParseMembers(rest[1..])
         case Fail => Fail
         case Done(members, rest') => Done([m] + members, rest'))
      else Fail
  }

  // --- unique decodability ---------------------------------------------------------------

  lemma Hex4OfDigits(c: CodeUnit)
    ensures Hex4(HexDigit(c / 4096), HexDigit(c / 256 % 16), HexDigit(c / 16 % 16), HexDigit(c % 16)) == Some(c)
  {
    assert c / 256 / 16 == c / 4096 && c / 16 / 16 == c / 256;
  }

  lemma ReadUnicodeEscape(c: CodeUnit, t: Text)
    ensures ReadUnit(UnicodeEscape(c) + t) == Done(c, t)
  {
    Hex4OfDigits(c);
    var e := UnicodeEscape(c);
    assert (e + t)[6..] == t;
    assert ShortTarget(LETTER_U) == None;
  }

  lemma ReadEscapeUnit(c: CodeUnit, t: Text)
    ensures ReadUnit(EscapeUnit(c) + t) == Done(c, t)
    ensures EscapeUnit(c)[0] != QUOTE
  {
    var e := EscapeUnit(c);
    if ShortEscape(c).Some? {
      assert (e + t)[2..] == t;
    } else if c < 0x20 || IsLead(c) || IsTrail(c) {
      ReadUnicodeEscape(c, t);
    } else {
      assert (e + t)[1..] == t;
    }
  }

  lemma UnescapeStep(t: Text, c: CodeUnit, rest: Text)
    requires t != [] && t[0] != QUOTE && ReadUnit(t) == Done(c, rest)
    ensures Unescape(t) == Prepend(c, Unescape(rest))
  {
  }

  lemma UnescapeRaw(c: CodeUnit, t: Text)
    requires c != QUOTE && c != BACKSLASH
    ensures Unescape([c] + t) == Prepend(c, Unescape(t))
  {
    assert ([c] + t)[1..] == t;
    UnescapeStep([c] + t, c, t);
  }

  lemma UnescapePair(a: CodeUnit, b: CodeUnit, t: Text)
    requires IsLead(a) && IsTrail(b)
    ensures Unescape([a, b] + t) == Prepend(a, Prepend(b, Unescape(t)))
  {
    UnescapeRaw(b, t);
    UnescapeRaw(a, [b] + t);
    assert [a, b] + t == [a] + ([b] + t);
  }

  lemma UnescapeOne(c: CodeUnit, t: Text)
    ensures Unescape(EscapeUnit(c) + t) == Prepend(c, Unescape(t))
  {
    ReadEscapeUnit(c, t);
    UnescapeStep(EscapeUnit(c) + t, c, t);
  }

  /** Printing peels a surrogate pair or a single unit off the front. */
  lemma {:induction false} EscapeFront(s: Text, rest: Text)
    requires s != []
    ensures StartsWithPair(s) ==>
      Escape(s) + rest == [s[0], s[1]] + (Escape(s[2..]) + rest) && s == [s[0]] + ([s[1]] + s[2..])
    ensures !StartsWithPair(s) ==>
      Escape(s) + rest == EscapeUnit(s[0]) + (Escape(s[1..]) + rest) && s == [s[0]] + s[1..]
  {
  }

  lemma UnescapeClose(rest: Text)
    requires rest != [] && rest[0] == QUOTE
    ensures Unescape(Escape([]) + rest) == Done([], rest[1..])
  {
    assert Escape([]) + rest == rest;
  }

  lemma {:induction false} UnescapeEscape(s: Text, rest: Text)
    requires rest != [] && rest[0] == QUOTE
    ensures Unescape(Escape(s) + rest) == Done(s, rest[1..])
  {
    if s == [] {
      UnescapeClose(rest);
    } else {
      EscapeFront(s, rest);
      if StartsWithPair(s) {
        UnescapeEscape(s[2..], rest);
        UnescapePair(s[0], s[1], Escape(s[2..]) + rest);
      } else {
        UnescapeEscape(s[1..], rest);
        UnescapeOne(s[0], Escape(s[1..]) + rest);
      }
    }
  }

  lemma {:induction false} DigitRunExact(d: Text, rest: Text)
    requires AllDigits(d) && (rest == [] || !IsDigit(rest[0]))
    ensures DigitRun(d + rest) == |d|
  {
    if d == [] {
      assert d + rest == rest;
    } else {
      DigitRunExact(d[1..], rest);
      assert (d + rest)[1..] == d[1..] + rest;
    }
  }

  lemma DigitsExact(n: nat, rest: Text)
    requires rest == [] || !IsDigit(rest[0])
    ensures var t := Decimal(n) + rest; var k := DigitRun(t);
            k > 0 && DigitsValue(t[..k]) == n && t[k..] == rest
  {
    var d := Decimal(n);
    DigitRunExact(d, rest);
    assert (d + rest)[..|d|] == d && (d + rest)[|d|..] == rest;
  }

  lemma ParseNatural(n: nat, rest: Text)
    requires n <= MAX_SAFE_INTEGER && (rest == [] || !IsDigit(rest[0]))
    ensures ParseNumber(Decimal(n) + rest) == Done(Num(n), rest)
    ensures ParseNumber([MINUS] + (Decimal(n) + rest)) == Done(Num(0 - n as int), rest)
  {
    DigitsExact(n, rest);
    var t := Decimal(n) + rest;
    assert t[0] == Decimal(n)[0];
    assert ([MINUS] + t)[1..] == t;
  }

  lemma {:induction false} NegativeText(n: SafeInt, rest: Text)
    requires n < 0
    ensures PrintNumber(n) + rest == [MINUS] + (Decimal(-n) + rest)
  {
  }

  lemma {:induction false} ParseNumberExact(n: SafeInt, rest: Text)
    requires rest == [] || !IsDigit(rest[0])
    ensures ParseNumber(PrintNumber(n) + rest) == Done(Num(n), rest)
  {
    if n < 0 {
      ParseNatural(-n, rest);
      NegativeText(n, rest);
    } else {
      ParseNatural(n, rest);
    }
  }

  /** A number starts with a digit or a minus sign, which no other value does. */
  lemma ParseNumberValue(n: SafeInt, rest: Text)
    requires rest == [] || !IsDigit(rest[0])
    ensures ParseValue(PrintNumber(n) + rest) == Done(Num(n), rest)
  {
    ParseNumberExact(n, rest);
    NumberOnly(PrintNumber(n) + rest);
  }

  lemma NumberOnly(t: Text)
    requires t != [] && (t[0] == MINUS || IsDigit(t[0]))
    ensures ParseValue(t) == ParseNumber(t)
  {
    assert Lit("null")[0] == 110 && Lit("true")[0] == 116 && Lit("false")[0] == 102;
  }

  lemma ParseLiteral(v: Json, rest: Text)
    requires v.Null? || v.Bool?
    ensures ParseValue(Print(v) + rest) == Done(v, rest)
  {
    var t := Print(v) + rest;
    assert Lit("null")[0] == 110 && Lit("true")[0] == 116 && Lit("false")[0] == 102;
    assert t[|Print(v)|..] == rest;
  }

  /** What can follow a value inside a printed text. */
  predicate Delimited(rest: Text) {
    rest == [] || rest[0] == COMMA || rest[0] == RBRACKET || rest[0] == RBRACE
  }

  /** No value prints to a text that starts with a closing bracket or brace. */
  lemma PrintStart(v: Json)
    ensures Print(v) != [] && Print(v)[0] != RBRACKET && Print(v)[0] != RBRACE
  {
  }

  lemma {:induction false} ParseString(s: Text, rest: Text)
    ensures ParseValue(Quote(s) + rest) == Done(Str(s), rest)
  {
    UnescapeEscape(s, [QUOTE] + rest);
    assert (Quote(s) + rest)[1..] == Escape(s) + ([QUOTE] + rest);
    assert ([QUOTE] + rest)[1..] == rest;
  }

  lemma ParseArray(t: Text, items: seq<Json>, rest: Text)
    requires t != [] && t[0] != RBRACKET && ParseItems(t) == Done(items, rest)
    ensures ParseValue([LBRACKET] + t) == Done(Arr(items), rest)
  {
    assert ([LBRACKET] + t)[1..] == t;
  }

  lemma ParseObject(t: Text, members: seq<Member>, rest: Text)
    requires t != [] && t[0] != RBRACE && ParseMembers(t) == Done(members, rest)
    ensures ParseValue([LBRACE] + t) == Done(Obj(members), rest)
  {
    assert ([LBRACE] + t)[1..] == t;
  }

  lemma ParseEmpty(rest: Text)
    ensures ParseValue([LBRACKET, RBRACKET] + rest) == Done(Arr([]), rest)
    ensures ParseValue([LBRACE, RBRACE] + rest) == Done(Obj([]), rest)
  {
    assert ([LBRACKET, RBRACKET] + rest)[2..] == rest;
    assert ([LBRACE, RBRACE] + rest)[2..] == rest;
  }

  /** The decoder recovers any value from its printed text, whatever follows it. */
  lemma {:induction false} ParsePrint(v: Json, rest: Text)
    requires Delimited(rest)
    ensures ParseValue(Print(v) + rest) == Done(v, rest)
    decreases v, 1
  {
    match v
    case Null => ParseLiteral(v, rest);
    case Bool(_) => ParseLiteral(v, rest);
    case Num(n) => ParseNumberValue(n, rest);
    case Str(s) => ParseString(s, rest);
    case Arr(items) =>
      if items == [] {
        ParseEmpty(rest);
        assert Print(v) == [LBRACKET, RBRACKET];
      } else {
        ParsePrintItems(items, rest);
        ArrayText(items, rest);
        ParseArray(PrintItems(items) + ([RBRACKET] + rest), items, rest);
      }
    case Obj(members) =>
      if members == [] {
        ParseEmpty(rest);
        assert Print(v) == [LBRACE, RBRACE];
      } else {
        ParsePrintMembers(members, rest);
        ObjectText(members, rest);
        ParseObject(PrintMembers(members) + ([RBRACE] + rest), members, rest);
      }
  }

  lemma {:induction false} ArrayText(items: seq<Json>, rest: Text)
    requires items != []
    ensures var t := PrintItems(items) + ([RBRACKET] + rest);
            t != [] && t[0] != RBRACKET && Print(Arr(items)) + rest == [LBRACKET] + t
  {
    PrintStart(items[0]);
    assert PrintItems(items)[0] == Print(items[0])[0];
  }

  lemma {:induction false} ObjectText(members: seq<Member>, rest: Text)
    requires members != []
    ensures var t := PrintMembers(members) + ([RBRACE] + rest);
            t != [] && t[0] != RBRACE && Print(Obj(members)) + rest == [LBRACE] + t
  {
    var head := PrintMember(members[0]);
    assert |head| > 0 && head[0] == QUOTE;
    assert head <= PrintMembers(members);
  }

  lemma Regroup(a: Text, b: Text, c: Text, d: Text)
    ensures a + b + c + d == a + (b + (c + d))
  {
  }

  lemma ItemsLast(t: Text, v: Json, rest: Text)
    requires ParseValue(t) == Done(v, [RBRACKET] + rest)
    ensures ParseItems(t) == Done([v], rest)
  {
    assert ([RBRACKET] + rest)[1..] == rest;
  }

  lemma ItemsMore(t: Text, v: Json, tail: Text, items: seq<Json>, rest: Text)
    requires ParseValue(t) == Done(v, [COMMA] + tail) && ParseItems(tail) == Done(items, rest)
    ensures ParseItems(t) == Done([v] + items, rest)
  {
    assert ([COMMA] + tail)[1..] == tail;
  }

  lemma {:induction false} ItemsText(items: seq<Json>, close: Text)
    requires items != []
    ensures |items| == 1 ==>
      PrintItems(items) + close == Print(items[0]) + close && items == [items[0]]
    ensures |items| > 1 ==>
      PrintItems(items) + close == Print(items[0]) + ([COMMA] + (PrintItems(items[1..]) + close))
      && items == [items[0]] + items[1..]
  {
    if |items| > 1 {
      Regroup(Print(items[0]), [COMMA], PrintItems(items[1..]), close);
    }
  }

  lemma {:induction false} ParsePrintItems(items: seq<Json>, rest: Text)
    requires items != []
    ensures ParseItems(PrintItems(items) + ([RBRACKET] + rest)) == Done(items, rest)
    decreases items, 0
  {
    var close := [RBRACKET] + rest;
    ItemsText(items, close);
    if |items| == 1 {
      ParsePrint(items[0], close);
      ItemsLast(Print(items[0]) + close, items[0], rest);
    } else {
      var tail := PrintItems(items[1..]) + close;
      ParsePrint(items[0], [COMMA] + tail);
      ParsePrintItems(items[1..], rest);
      ItemsMore(Print(items[0]) + ([COMMA] + tail), items[0], tail, items[1..], rest);
    }
  }

  lemma MemberParts(t: Text, key: Text, tail: Text, v: Json, rest: Text)
    requires t != [] && t[0] == QUOTE && Unescape(t[1..]) == Done(key, [COLON] + tail)
    requires ParseValue(tail) == Done(v, rest)
    ensures ParseMember(t) == Done(Member(key, v), rest)
  {
    assert ([COLON] + tail)[1..] == tail;
  }

  lemma MemberText(m: Member, rest: Text)
    ensures var t := PrintMember(m) + rest;
            t != [] && t[0] == QUOTE
            && t[1..] == Escape(m.key) + ([QUOTE] + ([COLON] + (Print(m.value) + rest)))
  {
    var tail := Escape(m.key) + ([QUOTE] + ([COLON] + (Print(m.value) + rest)));
    assert PrintMember(m) + rest == [QUOTE] + tail;
  }

  lemma {:induction false} ParsePrintMember(m: Member, rest: Text)
    requires Delimited(rest)
    ensures ParseMember(PrintMember(m) + rest) == Done(m, rest)
    decreases m, 2
  {
    var tail := Print(m.value) + rest;
    var colon := [COLON] + tail;
    UnescapeEscape(m.key, [QUOTE] + colon);
    assert ([QUOTE] + colon)[1..] == colon;
    ParsePrint(m.value, rest);
    MemberText(m, rest);
    MemberParts(PrintMember(m) + rest, m.key, tail, m.value, rest);
  }

  lemma MembersLast(t: Text, m: Member, rest: Text)
    requires ParseMember(t) == Done(m, [RBRACE] + rest)
    ensures ParseMembers(t) == Done([m], rest)
  {
    assert ([RBRACE] + rest)[1..] == rest;
  }

  lemma MembersMore(t: Text, m: Member, tail: Text, members: seq<Member>, rest: Text)
    requires ParseMember(t) == Done(m, [COMMA] + tail) && ParseMembers(tail) == Done(members, rest)
    ensures ParseMembers(t) == Done([m] + members, rest)
  {
    assert ([COMMA] + tail)[1..] == tail;
  }

  lemma {:induction false} MembersMoreText(members: seq<Member>, close: Text)
    requires |members| > 1
    ensures PrintMembers(members) + close
         == PrintMember(members[0]) + ([COMMA] + (PrintMembers(members[1..]) + close))
  {
    var first, others := PrintMember(members[0]), PrintMembers(members[1..]);
    assert PrintMembers(members) == first + [COMMA] + others;
    Regroup(first, [COMMA], others, close);
  }

  lemma {:induction false} ParsePrintMembers(members: seq<Member>, rest: Text)
    requires members != []
    ensures ParseMembers(PrintMembers(members) + ([RBRACE] + rest)) == Done(members, rest)
    decreases members, 0
  {
    var close := [RBRACE] + rest;
    if |members| == 1 {
      assert members == [members[0]];
      ParsePrintMember(members[0], close);
      MembersLast(PrintMember(members[0]) + close, members[0], rest);
    } else {
      var tail := PrintMembers(members[1..]) + close;
      MembersMoreText(members, close);
      assert members == [members[0]] + members[1..];
      ParsePrintMember(members[0], [COMMA] + tail);
      ParsePrintMembers(members[1..], rest);
      MembersMore(PrintMember(members[0]) + ([COMMA] + tail), members[0], tail, members[1..], rest);
    }
  }

  /** `canonicalize` followed by the decoder gives back the value, keys sorted. */
  lemma DecodeCanonical(v: Json)
    ensures ParseValue(Canonicalize(v)) == Done(Normalize(v), [])
  {
    ParsePrint(Normalize(v), []);
    assert Canonicalize(v) + [] == Canonicalize(v);
  }

  // --- equality of values as maps -------------------------------------------------------

  /** Equal JSON values when objects are taken as maps from key to value. */
  ghost predicate SameValue(a: Json, b: Json)
    decreases a
  {
    match (a, b)
    case (Arr(x), Arr(y)) => |x| == |y| && forall i :: 0 <= i < |x| ==> SameValue(x[i], y[i])
    case (Obj(x), Obj(y)) =>
      |x| == |y| && forall i :: 0 <= i < |x| ==> HasSame(x[i], y)
    case _ => a == b
  }

  ghost predicate HasSame(m: Member, y: seq<Member>)
    decreases m
  {
    exists j :: 0 <= j < |y| && m.key == y[j].key && SameValue(m.value, y[j].value)
  }

  ghost predicate HasKey(y: seq<Member>, key: Text) {
    exists j :: 0 <= j < |y| && y[j].key == key
  }

  lemma MemberOrder()
    ensures TotalPreorder(MemberLeq)
    ensures Antisymmetric(MemberLeq, KeyOf)
  {
    forall a: Member, b: Member ensures MemberLeq(a, b) || MemberLeq(b, a)
      ensures MemberLeq(a, b) && MemberLeq(b, a) ==> KeyOf(a) == KeyOf(b) {
      LessTrichotomy(a.key, b.key);
    }
    forall a: Member, b: Member, c: Member | MemberLeq(a, b) && MemberLeq(b, c)
      ensures MemberLeq(a, c)
    {
      NotLessTransitive(a.key, b.key, c.key);
    }
  }

  /** Some member of a map-equal object has any given key. */
  lemma {:induction false} KeysCovered(x: seq<Member>, y: seq<Member>)
    requires |x| == |y| && DistinctBy(x, KeyOf) && DistinctBy(y, KeyOf)
    requires forall i :: 0 <= i < |x| ==> HasKey(y, x[i].key)
    ensures forall j :: 0 <= j < |y| ==> HasKey(x, y[j].key)
  {
    var xs := set i | 0 <= i < |x| :: x[i].key;
    var ys := set j | 0 <= j < |y| :: y[j].key;
    KeyCount(x);
    KeyCount(y);
    forall k | k in xs ensures k in ys {
      var i :| 0 <= i < |x| && x[i].key == k;
      assert HasKey(y, x[i].key);
    }
    SubsetOfSameSize(xs, ys);
    forall j | 0 <= j < |y| ensures HasKey(x, y[j].key) {
      assert y[j].key in ys;
    }
  }

  lemma {:induction false} KeyCount(x: seq<Member>)
    requires DistinctBy(x, KeyOf)
    ensures |set i | 0 <= i < |x| :: x[i].key| == |x|
  {
    var ks := set i | 0 <= i < |x| :: x[i].key;
    if x != [] {
      var y := x[..|x| - 1];
      KeyCount(y);
      var ys := set i | 0 <= i < |y| :: y[i].key;
      var last := KeyOf(x[|x| - 1]);
      forall i | 0 <= i < |y| ensures y[i].key != last { assert KeyOf(x[i]) != last; }
      assert ks == ys + {last};
    }
  }

  lemma SubsetOfSameSize<T>(a: set<T>, b: set<T>)
    requires a <= b && |a| == |b|
    ensures a == b
  {
    assert b == a + (b - a);
  }

  /** Sorting lists without repeated keys agrees exactly when they hold the same members. */
  lemma SortedMembersEqual(x: seq<Member>, y: seq<Member>)
    requires DistinctBy(x, KeyOf) && DistinctBy(y, KeyOf)
    ensures Sort(x, MemberLeq) == Sort(y, MemberLeq) <==> (forall m :: m in x <==> m in y)
  {
    MemberOrder();
    SortPermutes(x, MemberLeq);
    SortPermutes(y, MemberLeq);
    if forall m :: m in x <==> m in y {
      SortForgetsOrder(x, y, MemberLeq, KeyOf);
    }
  }

  lemma NormalizedKeys(x: seq<Member>)
    requires DistinctBy(x, KeyOf)
    ensures DistinctBy(NormalizeMembers(x), KeyOf)
  {
    var r := NormalizeMembers(x);
    forall i, j | 0 <= i < j < |r| ensures KeyOf(r[i]) != KeyOf(r[j]) {
      assert KeyOf(x[i]) != KeyOf(x[j]);
    }
  }

  /** Lists of one length without repeated keys hold the same members once one covers the other. */
  lemma {:induction false} CoveredMembers(x: seq<Member>, y: seq<Member>)
    requires |x| == |y| && DistinctBy(x, KeyOf) && DistinctBy(y, KeyOf)
    requires forall i :: 0 <= i < |x| ==> x[i] in y
    ensures forall m :: m in x <==> m in y
  {
    forall i | 0 <= i < |x| ensures HasKey(y, x[i].key) {
      var j :| 0 <= j < |y| && y[j] == x[i];
    }
    KeysCovered(x, y);
    forall j | 0 <= j < |y| ensures y[j] in x {
      assert HasKey(x, y[j].key);
      var i :| 0 <= i < |x| && x[i].key == y[j].key;
      var k :| 0 <= k < |y| && y[k] == x[i];
      assert KeyOf(y[j]) == KeyOf(y[k]);
      assert j == k;
    }
  }

  /** The members `x` and `y` of two objects with their normal forms `nx` and `ny`. */
  ghost predicate Aligned(x: seq<Member>, nx: seq<Member>) {
    |x| == |nx| && forall i :: 0 <= i < |x| ==> nx[i] == Member(x[i].key, Normalize(x[i].value))
  }

  lemma {:induction false} NormalOfSameMembers(x: seq<Member>, y: seq<Member>, nx: seq<Member>, ny: seq<Member>)
    requires Aligned(x, nx) && Aligned(y, ny) && SameValue(Obj(x), Obj(y))
    requires forall i, j :: 0 <= i < |x| && 0 <= j < |y| && SameValue(x[i].value, y[j].value) ==>
               Normalize(x[i].value) == Normalize(y[j].value)
    ensures forall i :: 0 <= i < |nx| ==> nx[i] in ny
  {
    forall i | 0 <= i < |nx| ensures nx[i] in ny {
      assert HasSame(x[i], y);
      var j :| 0 <= j < |y| && x[i].key == y[j].key && SameValue(x[i].value, y[j].value);
      assert nx[i] == ny[j];
    }
  }

  lemma {:induction false} SameMembersOfNormal(x: seq<Member>, y: seq<Member>, nx: seq<Member>, ny: seq<Member>)
    requires Aligned(x, nx) && Aligned(y, ny) && |x| == |y|
    requires forall i :: 0 <= i < |nx| ==> nx[i] in ny
    requires forall i, j :: 0 <= i < |x| && 0 <= j < |y| && Normalize(x[i].value) == Normalize(y[j].value) ==>
               SameValue(x[i].value, y[j].value)
    ensures SameValue(Obj(x), Obj(y))
  {
    forall i | 0 <= i < |x| ensures HasSame(x[i], y) {
      assert nx[i] in ny;
      var j :| 0 <= j < |ny| && ny[j] == nx[i];
      assert x[i].key == y[j].key && Normalize(x[i].value) == Normalize(y[j].value);
      assert SameValue(x[i].value, y[j].value);
    }
  }

  /** Sorting keys erases insertion order and nothing else. */
  lemma {:induction false} NormalIffSame(a: Json, b: Json)
    requires Plain(a) && Plain(b)
    ensures Normalize(a) == Normalize(b) <==> SameValue(a, b)
    decreases a
  {
    match (a, b)
    case (Arr(x), Arr(y)) =>
      forall i | 0 <= i < |x| && i < |y| ensures Normalize(x[i]) == Normalize(y[i]) <==> SameValue(x[i], y[i]) {
        NormalIffSame(x[i], y[i]);
      }
      var nx, ny := NormalizeItems(x), NormalizeItems(y);
      assert nx == ny <==> |x| == |y| && forall i :: 0 <= i < |x| ==> nx[i] == ny[i];
    case (Obj(x), Obj(y)) =>
      forall i, j | 0 <= i < |x| && 0 <= j < |y|
        ensures Normalize(x[i].value) == Normalize(y[j].value) <==> SameValue(x[i].value, y[j].value)
      {
        NormalIffSame(x[i].value, y[j].value);
      }
      NormalIffSameObject(x, y);
    case _ =>
  }

  /** Values of two objects are equal in normal form exactly when they are the same. */
  ghost predicate ValuesAgree(x: seq<Member>, y: seq<Member>) {
    forall i, j :: 0 <= i < |x| && 0 <= j < |y| ==>
      (Normalize(x[i].value) == Normalize(y[j].value) <==> SameValue(x[i].value, y[j].value))
  }

  lemma {:induction false} SameObjectIsNormal(x: seq<Member>, y: seq<Member>)
    requires DistinctBy(x, KeyOf) && DistinctBy(y, KeyOf) && ValuesAgree(x, y) && SameValue(Obj(x), Obj(y))
    ensures Normalize(Obj(x)) == Normalize(Obj(y))
  {
    var nx, ny := NormalizeMembers(x), NormalizeMembers(y);
    NormalizedKeys(x);
    NormalizedKeys(y);
    NormalOfSameMembers(x, y, nx, ny);
    CoveredMembers(nx, ny);
    SortedMembersEqual(nx, ny);
  }

  lemma {:induction false} NormalObjectIsSame(x: seq<Member>, y: seq<Member>)
    requires DistinctBy(x, KeyOf) && DistinctBy(y, KeyOf) && ValuesAgree(x, y)
    requires Normalize(Obj(x)) == Normalize(Obj(y))
    ensures SameValue(Obj(x), Obj(y))
  {
    var nx, ny := NormalizeMembers(x), NormalizeMembers(y);
    SortPermutes(nx, MemberLeq);
    SortPermutes(ny, MemberLeq);
    forall i | 0 <= i < |nx| ensures nx[i] in ny { assert nx[i] in nx; }
    SameMembersOfNormal(x, y, nx, ny);
  }

  lemma {:induction false} NormalIffSameObject(x: seq<Member>, y: seq<Member>)
    requires DistinctBy(x, KeyOf) && DistinctBy(y, KeyOf) && ValuesAgree(x, y)
    ensures Normalize(Obj(x)) == Normalize(Obj(y)) <==> SameValue(Obj(x), Obj(y))
  {
    if SameValue(Obj(x), Obj(y)) { SameObjectIsNormal(x, y); }
    if Normalize(Obj(x)) == Normalize(Obj(y)) { NormalObjectIsSame(x, y); }
  }

  /**
   Two values print to the same canonical text exactly when they are equal with objects taken
   as maps: the text loses no information, and insertion order has no influence on it.
   */
  lemma CanonicalTextDeterminesValue(a: Json, b: Json)
    requires Plain(a) && Plain(b)
    ensures Canonicalize(a) == Canonicalize(b) <==> SameValue(a, b)
  {
    DecodeCanonical(a);
    DecodeCanonical(b);
    NormalIffSame(a, b);
  }

  // --- the printer as the code runs it --------------------------------------------------

  /** `parts.join(",")`. */
  // --- the order of the keys ------------------------------------------------------------------------------

  /** The members of every object, at every depth, stand in ascending order of code units. */
  ghost predicate KeysAscend(v: Json) {
    match v
    case Arr(items) => forall i :: 0 <= i < |items| ==> KeysAscend(items[i])
    case Obj(members) =>
      && (forall i, j :: 0 <= i < j < |members| ==> Less(members[i].key, members[j].key))
      && forall i :: 0 <= i < |members| ==> KeysAscend(members[i].value)
    case _ => true
  }

  /** The members of a normalized object are the given ones with normalized values, in ascending key order. */
  lemma NormalizedMembers(members: seq<Member>)
    requires DistinctBy(members, KeyOf)
    ensures var sorted := Normalize(Obj(members)).members;
            && |sorted| == |members|
            && (forall i, j :: 0 <= i < j < |sorted| ==> Less(sorted[i].key, sorted[j].key))
            && (forall m :: m in members ==> Member(m.key, Normalize(m.value)) in sorted)
            && (forall x :: x in sorted ==> exists m :: m in members && x == Member(m.key, Normalize(m.value)))
  {
    var given := NormalizeMembers(members);
    var sorted := Sort(given, MemberLeq);
    SortPermutes(given, MemberLeq);
    MemberOrder();
    SortSorts(given, MemberLeq);
    NormalizedDistinct(members);
    DistinctPermutes(given, sorted, KeyOf);
    forall i, j | 0 <= i < j < |sorted| ensures Less(sorted[i].key, sorted[j].key) {
      assert MemberLeq(sorted[i], sorted[j]) && KeyOf(sorted[i]) != KeyOf(sorted[j]);
      LessTrichotomy(sorted[i].key, sorted[j].key);
    }
    forall m | m in members ensures Member(m.key, Normalize(m.value)) in sorted {
      var i :| 0 <= i < |members| && members[i] == m;
      assert given[i] in given;
    }
    forall x | x in sorted ensures exists m :: m in members && x == Member(m.key, Normalize(m.value)) {
      assert x in given;
      var i :| 0 <= i < |given| && given[i] == x;
      assert members[i] in members;
    }
  }

  lemma NormalizedDistinct(members: seq<Member>)
    requires DistinctBy(members, KeyOf)
    ensures DistinctBy(NormalizeMembers(members), KeyOf)
  {
    var given := NormalizeMembers(members);
    forall i, j | 0 <= i < j < |given| ensures KeyOf(given[i]) != KeyOf(given[j]) {
      assert KeyOf(members[i]) != KeyOf(members[j]);
    }
  }

  /** Normalizing sorts the keys at every depth. */
  lemma {:induction false} NormalizeAscends(v: Json)
    requires Plain(v)
    ensures KeysAscend(Normalize(v))
  {
    match v
    case Arr(items) =>
      forall i | 0 <= i < |items| ensures KeysAscend(Normalize(v).items[i]) { NormalizeAscends(items[i]); }
    case Obj(members) =>
      NormalizedMembers(members);
      var sorted := Normalize(v).members;
      forall i | 0 <= i < |sorted| ensures KeysAscend(sorted[i].value) {
        assert sorted[i] in sorted;
        var m :| m in members && sorted[i] == Member(m.key, Normalize(m.value));
        NormalizeAscends(m.value);
      }
    case _ =>
  }

  /** A canonical text says the given value, with the keys of every object in ascending order. */
  ghost predicate SaysAscending(text: Text, v: Json) {
    var p := ParseValue(text);
    p.Done? && p.rest == [] && SameValue(v, p.value) && KeysAscend(p.value)
  }

  lemma CanonicalSaysAscending(v: Json)
    requires Plain(v)
    ensures SaysAscending(Canonicalize(v), v)
  {
    DecodeCanonical(v);
    NormalizeAscends(v);
    NormalizeSame(v);
  }

  lemma {:induction false} NormalizeSame(v: Json)
    requires Plain(v)
    ensures SameValue(v, Normalize(v))
  {
    match v
    case Arr(items) =>
      forall i | 0 <= i < |items| ensures SameValue(items[i], Normalize(v).items[i]) { NormalizeSame(items[i]); }
    case Obj(members) =>
      NormalizedMembers(members);
      var sorted := Normalize(v).members;
      forall i | 0 <= i < |members| ensures HasSame(members[i], sorted) {
        NormalizeSame(members[i].value);
        assert Member(members[i].key, Normalize(members[i].value)) in sorted;
        var j :| 0 <= j < |sorted| && sorted[j] == Member(members[i].key, Normalize(members[i].value));
      }
    case _ =>
  }

  /** The texts of the leaves, and an object whose keys are given in descending order. */
  lemma SampleTexts(a: CodeUnit, b: CodeUnit)
    requires 97 <= a < b <= 122
    ensures Canonicalize(Obj([Member([b], Num(-1)), Member([a], Bool(true))]))
         == [LBRACE, QUOTE, a, QUOTE, COLON] + Lit("true") + [COMMA, QUOTE, b, QUOTE, COLON] + Lit("-1") + [RBRACE]
    ensures Canonicalize(Arr([Null, Bool(false)])) == [LBRACKET] + Lit("null") + [COMMA] + Lit("false") + [RBRACKET]
  {
    var x, y := Member([a], Bool(true)), Member([b], Num(-1));
    SampleSorted(x, y);
    SampleQuote(a);
    SampleQuote(b);
    assert PrintMember(x) == [QUOTE, a, QUOTE, COLON] + Lit("true");
    assert PrintMember(y) == [QUOTE, b, QUOTE, COLON] + Lit("-1");
    assert PrintMembers([x, y]) == PrintMember(x) + [COMMA] + PrintMembers([y]);
  }

  lemma SampleQuote(c: CodeUnit)
    requires 97 <= c <= 122
    ensures Quote([c]) == [QUOTE, c, QUOTE]
    ensures PrintNumber(-1) == Lit("-1")
  {
    assert Escape([c]) == EscapeUnit(c) + Escape([]);
    assert Decimal(1) == [49];
  }

  lemma SampleSorted(x: Member, y: Member)
    requires |x.key| == |y.key| == 1 && x.key[0] < y.key[0] && Normalize(x.value) == x.value && Normalize(y.value) == y.value
    ensures Normalize(Obj([y, x])) == Obj([x, y])
  {
    var given := [y, x];
    assert DistinctBy(given, KeyOf);
    NormalizedMembers(given);
    var sorted := Normalize(Obj(given)).members;
    assert sorted[0] in sorted && sorted[1] in sorted;
    LessTrichotomy(sorted[0].key, sorted[1].key);
    assert Less(x.key, y.key) && !Less(y.key, x.key);
  }

  /** Exactly which units are escaped, and how: section 7 of RFC 8259 as JSON.stringify chooses among its forms. */
  lemma EscapeTable(c: CodeUnit)
    ensures c == 8 ==> EscapeUnit(c) == Lit("\\b")
    ensures c == 9 ==> EscapeUnit(c) == Lit("\\t")
    ensures c == 10 ==> EscapeUnit(c) == Lit("\\n")
    ensures c == 12 ==> EscapeUnit(c) == Lit("\\f")
    ensures c == 13 ==> EscapeUnit(c) == Lit("\\r")
    ensures c == 34 ==> EscapeUnit(c) == Lit("\\\"")
    ensures c == 92 ==> EscapeUnit(c) == Lit("\\\\")
    ensures c == 0x1F ==> EscapeUnit(c) == Lit("\\u001f")
    ensures c == 0xD8AB ==> EscapeUnit(c) == Lit("\\ud8ab")
    ensures EscapeUnit(c) == [c] <==> c >= 0x20 && c != 34 && c != 92 && !(0xD800 <= c <= 0xDFFF)
  {
  }

  function Join(parts: seq<Text>): Text {
    if parts == [] then []
    else if |parts| == 1 then parts[0]
    else parts[0] + [COMMA] + Join(parts[1..])
  }

  lemma {:induction false} JoinItems(items: seq<Json>, parts: seq<Text>)
    requires |parts| == |items| && forall i :: 0 <= i < |items| ==> parts[i] == Print(items[i])
    ensures Join(parts) == PrintItems(items)
  {
    if |items| > 1 {
      JoinItems(items[1..], parts[1..]);
    }
  }

  lemma {:induction false} JoinMembers(members: seq<Member>, parts: seq<Text>)
    requires |parts| == |members| && forall i :: 0 <= i < |members| ==> parts[i] == PrintMember(members[i])
    ensures Join(parts) == PrintMembers(members)
  {
    if |members| > 1 {
      JoinMembers(members[1..], parts[1..]);
    }
  }

  predicate TextLeq(a: Text, b: Text) { !Less(b, a) }

  function Keys(members: seq<Member>): (ks: seq<Text>)
    ensures |ks| == |members| && forall i :: 0 <= i < |members| ==> ks[i] == members[i].key
  {
    seq(|members|, i requires 0 <= i < |members| => members[i].key)
  }

  lemma {:induction false} InsertKeys(m: Member, s: seq<Member>)
    ensures Keys(Insert(m, s, MemberLeq)) == Insert(m.key, Keys(s), TextLeq)
  {
    if s != [] {
      assert Keys(s)[0] == s[0].key && Keys(s)[1..] == Keys(s[1..]);
      if MemberLeq(m, s[0]) {
        assert Keys([m] + s) == [m.key] + Keys(s);
      } else {
        InsertKeys(m, s[1..]);
        var r := Insert(m, s[1..], MemberLeq);
        assert Keys([s[0]] + r) == [s[0].key] + Keys(r);
      }
    }
  }

  /** Sorting the keys alone visits the members in sorted order. */
  lemma {:induction false} SortKeys(members: seq<Member>)
    ensures Keys(Sort(members, MemberLeq)) == Sort(Keys(members), TextLeq)
  {
    if members != [] {
      SortKeys(members[1..]);
      InsertKeys(members[0], Sort(members[1..], MemberLeq));
      assert Keys(members)[0] == members[0].key && Keys(members)[1..] == Keys(members[1..]);
    }
  }

  /** `record[key]`. */
  function Find(members: seq<Member>, key: Text): (i: nat)
    requires HasKey(members, key)
    ensures i < |members| && members[i].key == key
  {
    if members[0].key == key then 0 else 1 + Find(members[1..], key)
  }

  /** The member of the normalized object that the sorted key at `n` belongs to. */
  lemma SortedMemberAt(members: seq<Member>, keys: seq<Text>, n: nat)
    requires DistinctBy(members, KeyOf)
    requires keys == Sort(Keys(members), TextLeq) && n < |keys|
    ensures |Sort(NormalizeMembers(members), MemberLeq)| == |keys| == |members|
    ensures HasKey(members, keys[n])
    ensures Sort(NormalizeMembers(members), MemberLeq)[n]
         == Member(keys[n], Normalize(members[Find(members, keys[n])].value))
  {
    var normal := NormalizeMembers(members);
    var sorted := Sort(normal, MemberLeq);
    SortKeys(normal);
    assert Keys(normal) == Keys(members);
    SortPermutes(normal, MemberLeq);
    assert sorted[n] in normal;
    var i :| 0 <= i < |normal| && normal[i] == sorted[n];
    assert members[i].key == keys[n];
    var j := Find(members, keys[n]);
    assert KeyOf(members[i]) == KeyOf(members[j]);
    assert i == j;
  }

  /** The printed members of an object in key order. */
  ghost function PrintedParts(members: seq<Member>): seq<Text> {
    var sorted := Sort(NormalizeMembers(members), MemberLeq);
    seq(|sorted|, k requires 0 <= k < |sorted| => PrintMember(sorted[k]))
  }

  lemma PrintedPartAt(members: seq<Member>, keys: seq<Text>, n: nat)
    requires DistinctBy(members, KeyOf)
    requires keys == Sort(Keys(members), TextLeq) && n < |keys|
    ensures |PrintedParts(members)| == |keys| && HasKey(members, keys[n])
    ensures PrintedParts(members)[n] == Quote(keys[n]) + [COLON] + Canonicalize(members[Find(members, keys[n])].value)
  {
    SortedMemberAt(members, keys, n);
  }

  lemma JoinPrintedParts(members: seq<Member>)
    ensures |PrintedParts(members)| == |members| == |Sort(Keys(members), TextLeq)|
    ensures Join(PrintedParts(members)) == PrintMembers(Sort(NormalizeMembers(members), MemberLeq))
  {
    SortPermutes(Keys(members), TextLeq);
    SortPermutes(NormalizeMembers(members), MemberLeq);
    JoinMembers(Sort(NormalizeMembers(members), MemberLeq), PrintedParts(members));
  }

  /** `canonicalizeInternal`: loops push the printed parts, keys are sorted on a copy. */
  method CanonicalizeInternal(value: Json) returns (text: Text)
    requires Plain(value)
    ensures text == Canonicalize(value)
    ensures SaysAscending(text, value)
    decreases value, 2
  {
    CanonicalSaysAscending(value);
    match value
    case Null => text := Lit("null");
    case Bool(b) => text := if b then Lit("true") else Lit("false");
    case Num(n) => text := PrintNumber(n);
    case Str(s) => text := Quote(s);
    case Arr(items) =>
      var body := CanonicalizeItems(items);
      text := [LBRACKET] + body + [RBRACKET];
    case Obj(members) =>
      var body := CanonicalizeMembers(members);
      text := [LBRACE] + body + [RBRACE];
  }

  method CanonicalizeItems(items: seq<Json>) returns (text: Text)
    requires forall i :: 0 <= i < |items| ==> Plain(items[i])
    ensures text == PrintItems(NormalizeItems(items))
    decreases items, 0
  {
    ghost var normal := NormalizeItems(items);
    var parts: seq<Text> := [];
    for i := 0 to |items|
      invariant |parts| == i
      invariant forall k :: 0 <= k < i ==> parts[k] == Print(normal[k])
    {
      var part := CanonicalizeInternal(items[i]);
      parts := parts + [part];
    }
    JoinItems(normal, parts);
    text := Join(parts);
  }

  /** The part for the key at `i`. */
  method CanonicalizeMember(members: seq<Member>, keys: seq<Text>, i: nat) returns (part: Text)
    requires DistinctBy(members, KeyOf) && keys == Sort(Keys(members), TextLeq) && i < |keys|
    requires forall i :: 0 <= i < |members| ==> Plain(members[i].value)
    ensures |PrintedParts(members)| == |keys| && part == PrintedParts(members)[i]
    decreases members, 0
  {
    PrintedPartAt(members, keys, i);
    var child := CanonicalizeInternal(members[Find(members, keys[i])].value);
    part := Quote(keys[i]) + [COLON] + child;
  }

  method CanonicalizeMembers(members: seq<Member>) returns (text: Text)
    requires DistinctBy(members, KeyOf)
    requires forall i :: 0 <= i < |members| ==> Plain(members[i].value)
    ensures text == PrintMembers(Sort(NormalizeMembers(members), MemberLeq))
    ensures SaysAscending([LBRACE] + text + [RBRACE], Obj(members))
    decreases members, 1
  {
    CanonicalSaysAscending(Obj(members));
    var keys := Sort(Keys(members), TextLeq);
    var parts: seq<Text> := [];
    ghost var printed := PrintedParts(members);
    JoinPrintedParts(members);
    for i := 0 to |keys|
      invariant parts == printed[..i]
    {
      var part := CanonicalizeMember(members, keys, i);
      parts := parts + [part];
    }
    assert parts == printed;
    text := Join(parts);
  }
}
