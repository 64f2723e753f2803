/**
 The bytes that are hashed: Node encodes a JavaScript string as UTF-8 and replaces every
 unpaired surrogate by U+FFFD. Canonical texts have no unpaired surrogate, so distinct
 canonical texts stay distinct as bytes.
 */
module Utf8 {
  import opened Wrappers
  import opened Utf16
  import opened CanonicalJson

  type Byte = n: int | 0 <= n < 256

  function Scalar(lead: CodeUnit, trail: CodeUnit): nat
    requires IsLead(lead) && IsTrail(trail)
  {
    0x1_0000 + (lead - 0xD800) * 0x400 + (trail - 0xDC00)
  }

  function EncodeScalar(c: nat): seq<Byte>
    requires c < 0x11_0000
  {
    if c < 0x80 then [c]
    else if c < 0x800 then [0xC0 + c / 64, 0x80 + c % 64]
    else if c < 0x1_0000 then [0xE0 + c / 4096, 0x80 + c / 64 % 64, 0x80 + c % 64]
    else [0xF0 + c / 262144, 0x80 + c / 4096 % 64, 0x80 + c / 64 % 64, 0x80 + c % 64]
  }

  predicate IsContinuation(b: int) { 0x80 <= b < 0xC0 }

  /** The table of section 3 of RFC 3629, read backwards: the scalar that a byte sequence stands for. */
  function DecodeScalar(b: seq<int>): Option<nat> {
    if |b| == 1 && 0 <= b[0] < 0x80 then Some(b[0])
    else if |b| == 2 && 0xC0 <= b[0] < 0xE0 && IsContinuation(b[1]) then Some((b[0] - 0xC0) * 64 + (b[1] - 0x80))
    else if |b| == 3 && 0xE0 <= b[0] < 0xF0 && IsContinuation(b[1]) && IsContinuation(b[2]) then
      Some((b[0] - 0xE0) * 4096 + (b[1] - 0x80) * 64 + (b[2] - 0x80))
    else if |b| == 4 && 0xF0 <= b[0] < 0xF8 && IsContinuation(b[1]) && IsContinuation(b[2]) && IsContinuation(b[3]) then
      Some((b[0] - 0xF0) * 262144 + (b[1] - 0x80) * 4096 + (b[2] - 0x80) * 64 + (b[3] - 0x80))
    else None
  }

  /** Every scalar is encoded in the shortest form of the table. */
  lemma EncodeScalarExactly(c: nat)
    requires c < 0x11_0000
    ensures DecodeScalar(EncodeScalar(c)) == Some(c)
    ensures |EncodeScalar(c)| == if c < 0x80 then 1 else if c < 0x800 then 2 else if c < 0x1_0000 then 3 else 4
  {
    Base64Digits(c);
  }

  function Encode(t: Text): seq<Byte> {
    if t == [] then []
    else if StartsWithPair(t) then EncodeScalar(Scalar(t[0], t[1])) + Encode(t[2..])
    else EncodeScalar(if IsLead(t[0]) || IsTrail(t[0]) then 0xFFFD else t[0]) + Encode(t[1..])
  }

  /** Every surrogate is half of a pair. */
  predicate WellFormed(t: Text) {
    t == []
    || (StartsWithPair(t) && WellFormed(t[2..]))
    || (!IsLead(t[0]) && !IsTrail(t[0]) && WellFormed(t[1..]))
  }

  lemma {:induction false} WellFormedConcat(a: Text, b: Text)
    requires WellFormed(a) && WellFormed(b)
    ensures WellFormed(a + b)
  {
    if a == [] {
      assert a + b == b;
    } else if StartsWithPair(a) {
      WellFormedConcat(a[2..], b);
      assert (a + b)[2..] == a[2..] + b;
    } else {
      WellFormedConcat(a[1..], b);
      assert (a + b)[1..] == a[1..] + b;
    }
  }

  predicate NoSurrogate(t: Text) {
    forall i :: 0 <= i < |t| ==> !IsLead(t[i]) && !IsTrail(t[i])
  }

  lemma {:induction false} NoSurrogateWellFormed(t: Text)
    requires NoSurrogate(t)
    ensures WellFormed(t)
  {
    if t != [] {
      NoSurrogateWellFormed(t[1..]);
    }
  }

  lemma EscapeUnitWellFormed(c: CodeUnit)
    ensures WellFormed(EscapeUnit(c))
  {
    NoSurrogateWellFormed(EscapeUnit(c));
  }

  lemma PairWellFormed(a: CodeUnit, b: CodeUnit)
    requires IsLead(a) && IsTrail(b)
    ensures WellFormed([a, b])
  {
    assert [a, b][2..] == [];
  }

  lemma {:induction false} EscapeWellFormed(s: Text)
    ensures WellFormed(Escape(s))
  {
    if s == [] {
    } else if StartsWithPair(s) {
      EscapeWellFormed(s[2..]);
      PairWellFormed(s[0], s[1]);
      WellFormedConcat([s[0], s[1]], Escape(s[2..]));
    } else {
      EscapeWellFormed(s[1..]);
      EscapeUnitWellFormed(s[0]);
      WellFormedConcat(EscapeUnit(s[0]), Escape(s[1..]));
    }
  }

  lemma Wrapped(open: CodeUnit, t: Text, close: CodeUnit)
    requires WellFormed(t) && NoSurrogate([open]) && NoSurrogate([close])
    ensures WellFormed([open] + t + [close])
  {
    NoSurrogateWellFormed([open]);
    NoSurrogateWellFormed([close]);
    WellFormedConcat([open], t);
    WellFormedConcat([open] + t, [close]);
  }

  lemma QuoteWellFormed(s: Text)
    ensures WellFormed(Quote(s))
  {
    EscapeWellFormed(s);
    Wrapped(QUOTE, Escape(s), QUOTE);
  }

  lemma Joined(a: Text, separator: CodeUnit, b: Text)
    requires WellFormed(a) && WellFormed(b) && NoSurrogate([separator])
    ensures WellFormed(a + [separator] + b)
  {
    NoSurrogateWellFormed([separator]);
    WellFormedConcat(a, [separator]);
    WellFormedConcat(a + [separator], b);
  }

  /** No printed text, canonical or not, holds an unpaired surrogate. */
  lemma {:induction false} PrintWellFormed(v: Json)
    ensures WellFormed(Print(v))
    decreases v, 1
  {
    match v
    case Null => NoSurrogateWellFormed(Lit("null"));
    case Bool(b) =>
      NoSurrogateWellFormed(Lit("true"));
      NoSurrogateWellFormed(Lit("false"));
    case Num(n) => NoSurrogateWellFormed(PrintNumber(n));
    case Str(s) => QuoteWellFormed(s);
    case Arr(items) =>
      PrintItemsWellFormed(items);
      Wrapped(LBRACKET, PrintItems(items), RBRACKET);
    case Obj(members) =>
      PrintMembersWellFormed(members);
      Wrapped(LBRACE, PrintMembers(members), RBRACE);
  }

  lemma {:induction false} PrintItemsWellFormed(items: seq<Json>)
    ensures WellFormed(PrintItems(items))
    decreases items, 0
  {
    if items != [] {
      PrintWellFormed(items[0]);
      if |items| > 1 {
        PrintItemsWellFormed(items[1..]);
        Joined(Print(items[0]), COMMA, PrintItems(items[1..]));
      }
    }
  }

  lemma {:induction false} PrintMembersWellFormed(members: seq<Member>)
    ensures WellFormed(PrintMembers(members))
    decreases members, 0
  {
    if members != [] {
      QuoteWellFormed(members[0].key);
      PrintWellFormed(members[0].value);
      Joined(Quote(members[0].key), COLON, Print(members[0].value));
      if |members| > 1 {
        PrintMembersWellFormed(members[1..]);
        Joined(PrintMember(members[0]), COMMA, PrintMembers(members[1..]));
      }
    }
  }

  /** Scalars have prefix-free encodings. */
  lemma ScalarPrefixFree(c: nat, d: nat, s: seq<Byte>, t: seq<Byte>)
    requires c < 0x11_0000 && d < 0x11_0000
    requires EncodeScalar(c) + s == EncodeScalar(d) + t
    ensures c == d && s == t
  {
    var x, y := EncodeScalar(c), EncodeScalar(d);
    assert (x + s)[0] == x[0] && (y + t)[0] == y[0];
    SameWidth(c, d);
    assert x == (x + s)[..|x|] && y == (y + t)[..|y|];
    SameScalar(c, d);
    assert s == (x + s)[|x|..] && t == (y + t)[|y|..];
  }

  lemma SameWidth(c: nat, d: nat)
    requires c < 0x11_0000 && d < 0x11_0000 && EncodeScalar(c)[0] == EncodeScalar(d)[0]
    ensures |EncodeScalar(c)| == |EncodeScalar(d)|
  {
  }

  /** The digits of `c` in base 64. */
  lemma Base64Digits(c: nat)
    ensures c == c / 262144 * 262144 + c / 4096 % 64 * 4096 + c / 64 % 64 * 64 + c % 64
    ensures c / 64 * 64 + c % 64 == c
    ensures c / 4096 * 4096 + c / 64 % 64 * 64 + c % 64 == c
  {
    assert c / 64 / 64 == c / 4096 && c / 4096 / 64 == c / 262144;
  }

  lemma SameScalar(c: nat, d: nat)
    requires c < 0x11_0000 && d < 0x11_0000 && EncodeScalar(c) == EncodeScalar(d)
    ensures c == d
  {
    var x, y := EncodeScalar(c), EncodeScalar(d);
    assert x[0] == y[0];
    SameWidth(c, d);
    Base64Digits(c);
    Base64Digits(d);
    if |x| > 1 { assert x[1] == y[1]; }
    if |x| > 2 { assert x[2] == y[2]; }
    if |x| > 3 { assert x[3] == y[3]; }
  }

  /** The first scalar of a well-formed text and what follows it. */
  function First(t: Text): nat
    requires t != [] && WellFormed(t)
  {
    if StartsWithPair(t) then Scalar(t[0], t[1]) else t[0]
  }

  function Rest(t: Text): Text
    requires t != [] && WellFormed(t)
  {
    if StartsWithPair(t) then t[2..] else t[1..]
  }

  lemma EncodeFront(t: Text)
    requires t != [] && WellFormed(t)
    ensures First(t) < 0x11_0000 && WellFormed(Rest(t)) && |Rest(t)| < |t|
    ensures Encode(t) == EncodeScalar(First(t)) + Encode(Rest(t))
  {
  }

  lemma SameFront(a: Text, b: Text)
    requires a != [] && b != [] && WellFormed(a) && WellFormed(b)
    requires First(a) == First(b) && Rest(a) == Rest(b)
    ensures a == b
  {
    if StartsWithPair(a) {
      assert a == [a[0], a[1]] + Rest(a) && b == [b[0], b[1]] + Rest(b);
    } else {
      assert a == [a[0]] + Rest(a) && b == [b[0]] + Rest(b);
    }
  }

  /** UTF-8 keeps well-formed texts apart. */
  lemma {:induction false} EncodeInjective(a: Text, b: Text)
    requires WellFormed(a) && WellFormed(b) && Encode(a) == Encode(b)
    ensures a == b
  {
    if a == [] || b == [] {
    } else {
      EncodeFront(a);
      EncodeFront(b);
      ScalarPrefixFree(First(a), First(b), Encode(Rest(a)), Encode(Rest(b)));
      EncodeInjective(Rest(a), Rest(b));
      SameFront(a, b);
    }
  }

  // --- the digest ----------------------------------------------------------------------

  /** `canonicalSha256`, over an uninterpreted digest of bytes. */
  function CanonicalSha256(digest: seq<Byte> -> Text, v: Json): Text {
    digest(Encode(Canonicalize(v)))
  }

  ghost predicate CollisionFree(digest: seq<Byte> -> Text) {
    forall x, y :: digest(x) == digest(y) ==> x == y
  }

  /** A collision-free digest makes the canonical hash identify the value as a map-like object. */
  lemma HashDeterminesValue(digest: seq<Byte> -> Text, a: Json, b: Json)
    requires CollisionFree(digest) && Plain(a) && Plain(b)
    ensures CanonicalSha256(digest, a) == CanonicalSha256(digest, b) <==> SameValue(a, b)
  {
    CanonicalTextDeterminesValue(a, b);
    if CanonicalSha256(digest, a) == CanonicalSha256(digest, b) {
      PrintWellFormed(Normalize(a));
      PrintWellFormed(Normalize(b));
      EncodeInjective(Canonicalize(a), Canonicalize(b));
    }
  }
}
