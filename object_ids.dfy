/** The store's 12-byte object identifiers, their 24-character hexadecimal
    text form, and the syntax check a requested id must pass before it is
    looked up. */
module ObjectIds {
  import opened Ascii

  newtype byte = x: int | 0 <= x < 256

  const IdBytes: nat := 12
  const IdChars: nat := 24

  datatype ObjectIdBytes = ObjectIdBytes(binary: seq<byte>)

  /** An object identifier: exactly 12 bytes. */
  type ObjectId = id: ObjectIdBytes | |id.binary| == IdBytes witness ObjectIdBytes(seq(12, _ => 0))

  predicate IsHexDigit(c: char) {
    '0' <= c <= '9' || 'a' <= c <= 'f' || 'A' <= c <= 'F'
  }

  predicate AllHex(s: string) {
    forall i :: 0 <= i < |s| ==> IsHexDigit(s[i])
  }

  /** The syntax accepted for an identifier given as text: exactly 24
      hexadecimal digits, capitals allowed. */
  predicate IsValid(s: string) {
    |s| == IdChars && AllHex(s)
  }

  function HexValue(c: char): (v: int)
    requires IsHexDigit(c)
    ensures 0 <= v < 16
  {
    if '0' <= c <= '9' then c as int - '0' as int
    else if 'a' <= c <= 'f' then c as int - 'a' as int + 10
    else c as int - 'A' as int + 10
  }

  /** The small-letter digit for a value below 16. */
  function HexDigit(v: int): (c: char)
    requires 0 <= v < 16
    ensures IsHexDigit(c) && !IsUpper(c)
    ensures HexValue(c) == v
  {
    if v < 10 then ('0' as int + v) as char else ('a' as int + v - 10) as char
  }

  lemma HexDigitOfValue(c: char)
    requires IsHexDigit(c)
    ensures HexDigit(HexValue(c)) == ToLower(c)
  {
  }

  /** Decodes pairs of hexadecimal digits into bytes, high digit first. */
  function FromHex(s: string): (b: seq<byte>)
    requires |s| % 2 == 0 && AllHex(s)
    ensures |b| == |s| / 2
  {
    if s == [] then []
    else
      assert IsHexDigit(s[0]) && IsHexDigit(s[1]);
      [(16 * HexValue(s[0]) + HexValue(s[1])) as byte] + FromHex(s[2..])
  }

  /** Encodes bytes as small-letter hexadecimal, two digits per byte. */
  function ToHex(b: seq<byte>): (s: string)
    ensures |s| == 2 * |b| && AllHex(s)
    ensures forall i :: 0 <= i < |s| ==> !IsUpper(s[i])
  {
    if b == [] then []
    else [HexDigit(b[0] as int / 16), HexDigit(b[0] as int % 16)] + ToHex(b[1..])
  }

  lemma {:induction false} FromHexToHex(b: seq<byte>)
    ensures FromHex(ToHex(b)) == b
  {
    if b != [] {
      var s := ToHex(b);
      assert s[2..] == ToHex(b[1..]);
      FromHexToHex(b[1..]);
    }
  }

  /** One byte decoded from two digits encodes back to those digits, lowered. */
  lemma ByteRoundTrip(c: char, d: char)
    requires IsHexDigit(c) && IsHexDigit(d)
    ensures var x := 16 * HexValue(c) + HexValue(d);
            0 <= x < 256 && HexDigit(x / 16) == ToLower(c) && HexDigit(x % 16) == ToLower(d)
  {
    var hi, lo := HexValue(c), HexValue(d);
    assert (16 * hi + lo) / 16 == hi && (16 * hi + lo) % 16 == lo;
    HexDigitOfValue(c);
    HexDigitOfValue(d);
  }

  lemma {:induction false} ToHexFromHex(s: string)
    requires |s| % 2 == 0 && AllHex(s)
    ensures ToHex(FromHex(s)) == Lower(s)
  {
    if s != [] {
      assert IsHexDigit(s[0]) && IsHexDigit(s[1]);
      ByteRoundTrip(s[0], s[1]);
      ToHexFromHex(s[2..]);
      assert Lower(s) == [ToLower(s[0]), ToLower(s[1])] + Lower(s[2..]);
    }
  }

  /** `ObjectId(text)`: the identifier a valid text names. */
  function Parse(s: string): (id: ObjectId)
    requires IsValid(s)
  {
    ObjectIdBytes(FromHex(s))
  }

  /** `str(id)`: the text form of an identifier. */
  function Str(id: ObjectId): (s: string)
    ensures IsValid(s)
  {
    ToHex(id.binary)
  }

  /** Rendering a parsed id gives back the requested text in small letters. */
  lemma StrOfParse(s: string)
    requires IsValid(s)
    ensures Str(Parse(s)) == Lower(s)
  {
    ToHexFromHex(s);
  }

  /** Every 12-byte identifier is named by its own text form. */
  lemma ParseOfStr(id: ObjectId)
    ensures IsValid(Str(id)) && Parse(Str(id)) == id
  {
    FromHexToHex(id.binary);
  }

  /** Two valid texts name the same identifier exactly when they agree up to
      letter case. */
  lemma ParseInjective(s: string, t: string)
    requires IsValid(s) && IsValid(t)
    ensures Parse(s) == Parse(t) <==> Lower(s) == Lower(t)
  {
    StrOfParse(s);
    StrOfParse(t);
    if Lower(s) == Lower(t) {
      FromHexToHex(Parse(s).binary);
      FromHexToHex(Parse(t).binary);
    }
  }
}
