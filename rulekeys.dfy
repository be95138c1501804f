/** The identifier of an auto-generated past-event rule (getGeneratedPropertyKey, getMD5): the prefix
    "eventTriggered" followed by the lowercase hex of a digest of the JSON form of the event
    condition and its parent's time window. The JSON serializer and the digest are parameters. */
module RuleKeys {
  import opened Wrappers
  import opened Conditions

  /** A Java byte, signed. */
  type JavaByte = b: int | -128 <= b < 128

  const KeyPrefix: string := "eventTriggered"

  /** A lowercase hexadecimal digit, the alphabet Integer.toHexString writes. */
  predicate IsHexDigit(ch: char) {
    '0' <= ch <= '9' || 'a' <= ch <= 'f'
  }

  function HexDigit(d: nat): (r: char)
    requires d < 16
    ensures IsHexDigit(r)
  {
    if d < 10 then '0' + d as char else 'a' + (d - 10) as char
  }

  /** The inverse of HexDigit on the sixteen lowercase digits. */
  function DigitValue(ch: char): nat {
    if '0' <= ch <= '9' then (ch - '0') as nat
    else if 'a' <= ch <= 'f' then (ch - 'a') as nat + 10
    else 0
  }

  lemma DigitValueOfHexDigit(d: nat)
    requires d < 16
    ensures DigitValue(HexDigit(d)) == d
  {
  }

  /** Integer.toHexString of a non-negative int: lowercase digits, most significant first, no
      leading zeros. */
  function ToHexString(n: nat): (r: string)
    ensures |r| >= 1
  {
    if n < 16 then [HexDigit(n)] else ToHexString(n / 16) + [HexDigit(n % 16)]
  }

  /** b & 0xFF: the unsigned value of a byte. */
  function UnsignedByte(b: JavaByte): (r: nat)
    ensures r < 256
    ensures b >= 0 ==> r == b
    ensures b < 0 ==> r == b + 256
  {
    (b as int) % 256
  }

  /** (b & 0xFF) | 0x100: the unsigned value with bit 8 set, which for a value below 256 is the
      value plus 256. */
  function Widen(b: JavaByte): (r: nat)
    ensures 256 <= r < 512
  {
    UnsignedByte(b) + 0x100
  }

  /** A byte value with bit 8 set has three hex digits, the first of them '1' and the other two
      the byte's own. */
  lemma WidenedDigits(u: nat)
    requires u < 256
    ensures ToHexString(u + 256) == [HexDigit(1), HexDigit(u / 16), HexDigit(u % 16)]
  {
    var n := u + 256;
    assert n / 16 == u / 16 + 16 && n % 16 == u % 16;
    assert (u / 16 + 16) / 16 == 1 && (u / 16 + 16) % 16 == u / 16;
    assert ToHexString(n / 16) == [HexDigit(1), HexDigit(u / 16)];
  }

  /** The two characters getMD5 appends for one byte: toHexString((b & 0xFF) | 0x100).substring(1, 3). */
  function ByteHex(b: JavaByte): (r: string)
    ensures r == [HexDigit(UnsignedByte(b) / 16), HexDigit(UnsignedByte(b) % 16)]
  {
    WidenedDigits(UnsignedByte(b));
    ToHexString(Widen(b))[1..3]
  }

  /** The hex string of a whole digest, two characters per byte in order. */
  function HexEncode(digest: seq<JavaByte>): (r: string)
    ensures |r| == 2 * |digest|
  {
    if |digest| == 0 then [] else HexEncode(digest[..|digest| - 1]) + ByteHex(digest[|digest| - 1])
  }

  /** Reads a hex string back as the unsigned byte values it encodes. */
  function HexDecode(s: string): (r: seq<nat>)
  {
    if |s| < 2 then []
    else HexDecode(s[..|s| - 2]) + [DigitValue(s[|s| - 2]) * 16 + DigitValue(s[|s| - 1])]
  }

  /** The unsigned value of each byte, b & 0xFF. */
  function Unsigned(digest: seq<JavaByte>): (r: seq<nat>)
    ensures |r| == |digest|
    ensures forall i :: 0 <= i < |digest| ==> r[i] == UnsignedByte(digest[i])
  {
    seq(|digest|, i requires 0 <= i < |digest| => UnsignedByte(digest[i]))
  }

  /** Two hex digits read back as the byte they were written from. */
  lemma DecodeByteHex(b: JavaByte)
    ensures DigitValue(ByteHex(b)[0]) * 16 + DigitValue(ByteHex(b)[1]) == UnsignedByte(b)
  {
    var u := UnsignedByte(b);
    DigitValueOfHexDigit(u / 16);
    DigitValueOfHexDigit(u % 16);
  }

  /** Every character of the encoding is a lowercase hex digit. */
  lemma {:induction false} HexEncodeDigits(digest: seq<JavaByte>)
    ensures forall i :: 0 <= i < |HexEncode(digest)| ==> IsHexDigit(HexEncode(digest)[i])
  {
    if |digest| > 0 {
      HexEncodeDigits(digest[..|digest| - 1]);
    }
  }

  lemma DecodeSnoc(front: string, h: string)
    requires |h| == 2
    ensures HexDecode(front + h) == HexDecode(front) + [DigitValue(h[0]) * 16 + DigitValue(h[1])]
  {
    var s := front + h;
    assert s[..|s| - 2] == front;
  }

  lemma DecodeSnocByte(front: string, b: JavaByte)
    ensures HexDecode(front + ByteHex(b)) == HexDecode(front) + [UnsignedByte(b)]
  {
    DecodeSnoc(front, ByteHex(b));
    DecodeByteHex(b);
  }

  lemma UnsignedSnoc(digest: seq<JavaByte>)
    requires |digest| > 0
    ensures Unsigned(digest) == Unsigned(digest[..|digest| - 1]) + [UnsignedByte(digest[|digest| - 1])]
  {
    var n := |digest| - 1;
    var l, r := Unsigned(digest), Unsigned(digest[..n]) + [UnsignedByte(digest[n])];
    assert |l| == |r|;
    forall i | 0 <= i < |l| ensures l[i] == r[i] {
      if i < n { assert digest[..n][i] == digest[i]; }
    }
  }

  /** Decoding the encoding gives back the unsigned byte values. */
  lemma {:induction false} HexRoundTrip(digest: seq<JavaByte>)
    ensures HexDecode(HexEncode(digest)) == Unsigned(digest)
  {
    if |digest| > 0 {
      var n := |digest| - 1;
      var s := HexEncode(digest);
      var b := digest[n];
      var front, h := HexEncode(digest[..n]), ByteHex(b);
      assert s == front + h;
      DecodeSnocByte(front, b);
      HexRoundTrip(digest[..n]);
      UnsignedSnoc(digest);
    }
  }

  /** Distinct digests give distinct hex strings. */
  lemma HexEncodeInjective(a: seq<JavaByte>, b: seq<JavaByte>)
    requires HexEncode(a) == HexEncode(b)
    ensures a == b
  {
    HexRoundTrip(a);
    HexRoundTrip(b);
    assert |a| == |b|;
    forall i | 0 <= i < |a| ensures a[i] == b[i] {
      assert UnsignedByte(a[i]) == Unsigned(a)[i] == Unsigned(b)[i] == UnsignedByte(b[i]);
    }
  }

  /** getMD5 with its loop over the digest bytes; the digest algorithm itself is the parameter. */
  method GetMD5(input: string, md5: string -> seq<JavaByte>) returns (r: string)
    ensures r == HexEncode(md5(input))
  {
    var bytes := md5(input);
    var sb: string := "";
    var i := 0;
    while i < |bytes|
      invariant 0 <= i <= |bytes|
      invariant sb == HexEncode(bytes[..i])
    {
      assert bytes[..i + 1][..i] == bytes[..i];
      sb := sb + ByteHex(bytes[i]);
      i := i + 1;
    }
    assert bytes[..i] == bytes;
    return sb;
  }

  /** The map getGeneratedPropertyKey serializes: the event condition, the parent's "numberOfDays"
      (always present, possibly null) and one date slot under the name "fromDate", absent when the
      parent has neither date. */
  datatype KeyInput = KeyInput(condition: Condition, numberOfDays: Option<Value>, fromDate: Option<Value>)

  /** The JSON serializer; None stands for a JsonProcessingException. */
  type Serializer = KeyInput -> Option<string>

  /** MessageDigest MD5 over the string's bytes. */
  type Digest = string -> seq<JavaByte>

  /** The serialized map: "toDate", when present, is written into the "fromDate" slot and so
      replaces the parent's "fromDate". */
  function KeyInputFor(condition: Condition, parent: Condition): (r: KeyInput)
    ensures r.condition == condition && r.numberOfDays == GetParameter(parent, NumberOfDaysParam)
    ensures GetParameter(parent, ToDateParam).Some? ==> r.fromDate == GetParameter(parent, ToDateParam)
    ensures GetParameter(parent, ToDateParam).None? ==> r.fromDate == GetParameter(parent, FromDateParam)
  {
    var fromDate := GetParameter(parent, FromDateParam);
    var slot := if GetParameter(parent, ToDateParam).Some? then GetParameter(parent, ToDateParam) else fromDate;
    KeyInput(condition, GetParameter(parent, NumberOfDaysParam), slot)
  }

  /** getGeneratedPropertyKey. A null parent is dereferenced and throws; a serialization failure
      gives a null key; otherwise the key is the prefix and the hex of the digest. */
  function GeneratedPropertyKey(condition: Condition, parent: Option<Condition>,
                                serialize: Serializer, md5: Digest): (r: Result<Option<string>>)
    ensures r.Err? <==> parent.None?
    ensures r.Err? ==> r.error == NullParentCondition
    ensures r.Ok? && r.value.Some? <==> parent.Some? && serialize(KeyInputFor(condition, parent.value)).Some?
  {
    match parent
    case None => Err(NullParentCondition)
    case Some(p) =>
      match serialize(KeyInputFor(condition, p))
      case None => Ok(None)
      case Some(json) => Ok(Some(KeyPrefix + HexEncode(md5(json))))
  }

  /** A key is the prefix followed by two lowercase hex digits per digest byte. */
  lemma KeyShape(condition: Condition, parent: Condition, serialize: Serializer, md5: Digest)
    requires serialize(KeyInputFor(condition, parent)).Some?
    ensures var key := GeneratedPropertyKey(condition, Some(parent), serialize, md5).value.value;
            var digest := md5(serialize(KeyInputFor(condition, parent)).value);
            && |key| == |KeyPrefix| + 2 * |digest|
            && key[..|KeyPrefix|] == KeyPrefix
            && forall i :: |KeyPrefix| <= i < |key| ==> IsHexDigit(key[i])
  {
    var digest := md5(serialize(KeyInputFor(condition, parent)).value);
    HexEncodeDigits(digest);
    var key := KeyPrefix + HexEncode(digest);
    assert forall i :: |KeyPrefix| <= i < |key| ==> key[i] == HexEncode(digest)[i - |KeyPrefix|];
  }

  /** With an injective serializer and digest, two keys are equal only when the serialized maps are. */
  lemma KeyDeterminesInput(c1: Condition, p1: Condition, c2: Condition, p2: Condition,
                           serialize: Serializer, md5: Digest)
    requires forall x, y :: serialize(x).Some? && serialize(x) == serialize(y) ==> x == y
    requires forall s, t :: md5(s) == md5(t) ==> s == t
    requires serialize(KeyInputFor(c1, p1)).Some? && serialize(KeyInputFor(c2, p2)).Some?
    requires GeneratedPropertyKey(c1, Some(p1), serialize, md5) == GeneratedPropertyKey(c2, Some(p2), serialize, md5)
    ensures KeyInputFor(c1, p1) == KeyInputFor(c2, p2)
  {
    var j1, j2 := serialize(KeyInputFor(c1, p1)).value, serialize(KeyInputFor(c2, p2)).value;
    assert KeyPrefix + HexEncode(md5(j1)) == KeyPrefix + HexEncode(md5(j2));
    assert HexEncode(md5(j1)) == (KeyPrefix + HexEncode(md5(j1)))[|KeyPrefix|..];
    assert HexEncode(md5(j2)) == (KeyPrefix + HexEncode(md5(j2)))[|KeyPrefix|..];
    HexEncodeInjective(md5(j1), md5(j2));
  }

  /** Because "toDate" takes the "fromDate" slot, a parent bounded below by a date and a parent
      bounded above by the same date, with the same "numberOfDays", get the same key, whatever the
      serializer and the digest. */
  lemma FromDateToDateCollide(condition: Condition, typeId: string, tags: set<string>,
                              days: Value, date: Value, serialize: Serializer, md5: Digest)
    ensures var since := Condition(typeId, tags, [(NumberOfDaysParam, days), (FromDateParam, date)]);
            var until := Condition(typeId, tags, [(NumberOfDaysParam, days), (ToDateParam, date)]);
            GeneratedPropertyKey(condition, Some(since), serialize, md5) ==
            GeneratedPropertyKey(condition, Some(until), serialize, md5)
  {
    var since := Condition(typeId, tags, [(NumberOfDaysParam, days), (FromDateParam, date)]);
    var until := Condition(typeId, tags, [(NumberOfDaysParam, days), (ToDateParam, date)]);
    assert NumberOfDaysParam != FromDateParam && NumberOfDaysParam != ToDateParam && FromDateParam != ToDateParam;
    assert since.params[1..] == [(FromDateParam, date)] && until.params[1..] == [(ToDateParam, date)];
    assert ParamIndex(since.params, FromDateParam) == Some(1);
    assert ParamIndex(until.params, ToDateParam) == Some(1);
    assert GetParameter(since, ToDateParam).None?;
    assert GetParameter(since, FromDateParam) == Some(date);
    assert GetParameter(until, ToDateParam) == Some(date);
    assert GetParameter(since, NumberOfDaysParam) == GetParameter(until, NumberOfDaysParam) == Some(days);
  }

  /** When the parent has both dates, its "fromDate" does not enter the key. */
  lemma FromDateIgnoredWithToDate(condition: Condition, p1: Condition, p2: Condition,
                                  serialize: Serializer, md5: Digest)
    requires GetParameter(p1, ToDateParam).Some? && GetParameter(p1, ToDateParam) == GetParameter(p2, ToDateParam)
    requires GetParameter(p1, NumberOfDaysParam) == GetParameter(p2, NumberOfDaysParam)
    ensures GeneratedPropertyKey(condition, Some(p1), serialize, md5) == GeneratedPropertyKey(condition, Some(p2), serialize, md5)
  {
  }
}
