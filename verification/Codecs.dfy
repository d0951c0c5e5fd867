/** The textual encodings of a stored password hash: fields split at a separator, decimal numbers, and
    unpadded base64 (sections 3.2 and 4 of RFC 4648). */
module Codecs {
  import opened Wrappers
  import Text

  // ---------- Splitting ----------

  // strings.Split with a one-character separator.
  function Split(s: string, separator: char): (parts: seq<string>)
    ensures |parts| > 0
  {
    if s == "" then [""]
    else
      var rest := Split(s[1..], separator);
      if s[0] == separator then [""] + rest else [[s[0]] + rest[0]] + rest[1..]
  }

  lemma {:induction false} SplitWord(s: string, separator: char)
    requires separator !in s
    ensures Split(s, separator) == [s]
  {
    if s != "" {
      SplitWord(s[1..], separator);
      assert s == [s[0]] + s[1..];
    }
  }

  lemma {:induction false} SplitHead(head: string, separator: char, tail: string)
    requires separator !in head
    ensures Split(head + [separator] + tail, separator) == [head] + Split(tail, separator)
  {
    var s := head + [separator] + tail;
    if head == "" {
      assert s[1..] == tail;
    } else {
      SplitHead(head[1..], separator, tail);
      assert s[1..] == head[1..] + [separator] + tail;
      assert head == [head[0]] + head[1..];
    }
  }

  // Splitting undoes joining.
  lemma {:induction false} SplitJoin(parts: seq<string>, separator: char)
    requires parts != [] && forall p | p in parts :: separator !in p
    ensures Split(Text.Join(parts, separator), separator) == parts
  {
    assert parts[0] in parts;
    if |parts| == 1 {
      SplitWord(parts[0], separator);
    } else {
      assert forall p | p in parts[1..] :: p in parts;
      SplitJoin(parts[1..], separator);
      SplitHead(parts[0], separator, Text.Join(parts[1..], separator));
    }
  }

  // ---------- Decimal numbers ----------

  predicate Digit(c: char) {
    '0' <= c <= '9'
  }

  predicate AllDigits(s: string) {
    forall i | 0 <= i < |s| :: Digit(s[i])
  }

  function DigitChar(d: nat): (c: char)
    requires d < 10
    ensures Digit(c) && c as int - '0' as int == d
  {
    ('0' as int + d) as char
  }

  // The verb %d.
  function Decimal(n: nat): (s: string)
    ensures s != "" && AllDigits(s)
  {
    if n < 10 then [DigitChar(n)] else Decimal(n / 10) + [DigitChar(n % 10)]
  }

  function DigitsValue(s: string): nat
    requires AllDigits(s)
  {
    if s == "" then 0 else 10 * DigitsValue(s[..|s| - 1]) + (s[|s| - 1] as int - '0' as int)
  }

  lemma {:induction false} DecimalValue(n: nat)
    ensures DigitsValue(Decimal(n)) == n
  {
    if n >= 10 {
      DecimalValue(n / 10);
      assert Decimal(n)[..|Decimal(n)| - 1] == Decimal(n / 10);
    }
  }

  function PowerOfTen(k: nat): nat {
    if k == 0 then 1 else 10 * PowerOfTen(k - 1)
  }

  lemma {:induction false} DecimalLength(n: nat, k: nat)
    requires 0 < k && n < PowerOfTen(k)
    ensures |Decimal(n)| <= k
  {
    if n >= 10 {
      assert k > 1;
      DecimalLength(n / 10, k - 1);
    }
  }

  predicate FitsUint(s: string, limit: nat) {
    s != "" && AllDigits(s) && DigitsValue(s) < limit
  }

  lemma {:induction false} PrefixValue(s: string, n: nat)
    requires AllDigits(s) && n <= |s|
    ensures DigitsValue(s[..n]) <= DigitsValue(s)
    decreases |s| - n
  {
    if n < |s| {
      PrefixValue(s, n + 1);
      assert s[..n + 1][..n] == s[..n];
    } else {
      assert s[..n] == s;
    }
  }

  // parseDecimalUint: digits only, then the value, refused once it leaves the width.
  method ParseDecimalUint(s: string, limit: nat) returns (r: Option<nat>)
    requires limit > 0
    ensures r.Some? <==> FitsUint(s, limit)
    ensures r.Some? ==> r.value == DigitsValue(s)
  {
    if s == "" {
      return None;
    }
    for i := 0 to |s|
      invariant forall k | 0 <= k < i :: Digit(s[k])
    {
      if !Digit(s[i]) {
        return None;
      }
    }
    var n: nat := 0;
    for i := 0 to |s|
      invariant n == DigitsValue(s[..i]) && n < limit
    {
      assert s[..i + 1][..i] == s[..i];
      n := 10 * n + (s[i] as int - '0' as int);
      if n >= limit {
        PrefixValue(s, i + 1);
        return None;
      }
    }
    assert s[..|s|] == s;
    r := Some(n);
  }

  // ---------- Base64 ----------

  newtype Byte = b: int | 0 <= b < 256

  // Table 1 of RFC 4648.
  function SextetChar(v: nat): (c: char)
    requires v < 64
  {
    if v < 26 then ('A' as int + v) as char
    else if v < 52 then ('a' as int + v - 26) as char
    else if v < 62 then ('0' as int + v - 52) as char
    else if v == 62 then '+' else '/'
  }

  function SextetValue(c: char): (v: Option<nat>)
    ensures v.Some? ==> v.value < 64
  {
    if 'A' <= c <= 'Z' then Some(c as int - 'A' as int)
    else if 'a' <= c <= 'z' then Some(c as int - 'a' as int + 26)
    else if '0' <= c <= '9' then Some(c as int - '0' as int + 52)
    else if c == '+' then Some(62) else if c == '/' then Some(63) else None
  }

  lemma SextetsRoundTrip(v: nat)
    requires v < 64
    ensures SextetValue(SextetChar(v)) == Some(v)
  {
  }

  // The sextets of one to three bytes.
  function Group(bytes: seq<Byte>): (v: seq<nat>)
    requires 1 <= |bytes| <= 3
    ensures |v| == |bytes| + 1 && forall i | 0 <= i < |v| :: v[i] < 64
  {
    var b0 := bytes[0] as int;
    if |bytes| == 1 then [b0 / 4, b0 % 4 * 16]
    else
      var b1 := bytes[1] as int;
      if |bytes| == 2 then [b0 / 4, b0 % 4 * 16 + b1 / 16, b1 % 16 * 4]
      else
        var b2 := bytes[2] as int;
        [b0 / 4, b0 % 4 * 16 + b1 / 16, b1 % 16 * 4 + b2 / 64, b2 % 64]
  }

  function Chars(v: seq<nat>): (s: string)
    requires forall i | 0 <= i < |v| :: v[i] < 64
    ensures |s| == |v|
  {
    seq(|v|, i requires 0 <= i < |v| => SextetChar(v[i]))
  }

  function Encode(bytes: seq<Byte>): string {
    if |bytes| == 0 then ""
    else if |bytes| <= 3 then Chars(Group(bytes))
    else Chars(Group(bytes[..3])) + Encode(bytes[3..])
  }

  // Vectors of section 10 of RFC 4648, without padding.
  lemma KnownEncodings()
    ensures Encode([]) == "" && Encode([102]) == "Zg" && Encode([102, 111]) == "Zm8"
    ensures Encode([102, 111, 111]) == "Zm9v" && Encode([102, 111, 111, 98, 97, 114]) == "Zm9vYmFy"
  {
    assert Group([102, 111, 111]) == [25, 38, 61, 47];
    assert Chars([25, 38, 61, 47]) == "Zm9v";
    assert [102 as Byte, 111, 111, 98, 97, 114][..3] == [102, 111, 111];
    assert [102 as Byte, 111, 111, 98, 97, 114][3..] == [98, 97, 114];
    assert Group([98, 97, 114]) == [24, 38, 5, 50];
    assert Chars([24, 38, 5, 50]) == "YmFy";
    assert Group([102]) == [25, 32] && Chars([25, 32]) == "Zg";
    assert Group([102, 111]) == [25, 38, 60] && Chars([25, 38, 60]) == "Zm8";
  }

  // RawStdEncoding.EncodedLen
  function EncodedLen(n: nat): nat {
    n / 3 * 4 + (n % 3 * 8 + 5) / 6
  }

  // The bytes of a group of two to four sextets; left-over bits are dropped unseen.
  function GroupBytes(v: seq<nat>): seq<Byte>
    requires 2 <= |v| <= 4 && forall i | 0 <= i < |v| :: v[i] < 64
  {
    [(v[0] * 4 + v[1] / 16) as Byte]
    + (if |v| > 2 then [(v[1] % 16 * 16 + v[2] / 4) as Byte] else [])
    + (if |v| > 3 then [(v[2] % 4 * 64 + v[3]) as Byte] else [])
  }

  function Sextets(s: string): (r: Option<seq<nat>>)
    ensures r.Some? ==> |r.value| == |s| && forall i | 0 <= i < |s| :: r.value[i] < 64
  {
    if s == "" then Some([])
    else
      var rest := Sextets(s[1..]);
      if SextetValue(s[0]).Some? && rest.Some? then Some([SextetValue(s[0]).value] + rest.value) else None
  }

  function DecodeGroups(v: seq<nat>): Option<seq<Byte>>
    requires forall i | 0 <= i < |v| :: v[i] < 64
  {
    if |v| == 0 then Some([])
    else if |v| == 1 then None
    else if |v| <= 4 then Some(GroupBytes(v))
    else
      var rest := DecodeGroups(v[4..]);
      if rest.Some? then Some(GroupBytes(v[..4]) + rest.value) else None
  }

  predicate LineBreak(c: char) {
    c == '\n' || c == '\r'
  }

  function WithoutBreaks(s: string): string {
    if s == "" then "" else (if LineBreak(s[0]) then [] else [s[0]]) + WithoutBreaks(s[1..])
  }

  // RawStdEncoding.DecodeString, which skips line breaks and does not look at left-over bits.
  function Decode(s: string): Option<seq<Byte>> {
    var sextets := Sextets(WithoutBreaks(s));
    if sextets.Some? then DecodeGroups(sextets.value) else None
  }

  predicate InAlphabet(s: string) {
    forall i | 0 <= i < |s| :: SextetValue(s[i]).Some?
  }

  lemma CharsInAlphabet(v: seq<nat>)
    requires forall i | 0 <= i < |v| :: v[i] < 64
    ensures InAlphabet(Chars(v))
  {
    forall i | 0 <= i < |v| ensures SextetValue(Chars(v)[i]).Some? {
      SextetsRoundTrip(v[i]);
    }
  }

  lemma {:induction false} EncodedFacts(bytes: seq<Byte>)
    ensures InAlphabet(Encode(bytes)) && |Encode(bytes)| == EncodedLen(|bytes|)
  {
    if 0 < |bytes| <= 3 {
      CharsInAlphabet(Group(bytes));
    } else if |bytes| > 3 {
      CharsInAlphabet(Group(bytes[..3]));
      EncodedFacts(bytes[3..]);
    }
  }

  lemma {:induction false} AlphabetHasNoBreaks(s: string)
    requires InAlphabet(s)
    ensures WithoutBreaks(s) == s
  {
    if s != "" {
      assert SextetValue(s[0]).Some?;
      assert InAlphabet(s[1..]);
      AlphabetHasNoBreaks(s[1..]);
    }
  }

  lemma {:induction false} SextetsOfConcat(a: string, b: string)
    requires Sextets(a).Some? && Sextets(b).Some?
    ensures Sextets(a + b) == Some(Sextets(a).value + Sextets(b).value)
  {
    if a == "" {
      assert a + b == b && Sextets(a).value + Sextets(b).value == Sextets(b).value;
    } else {
      SextetsOfConcat(a[1..], b);
      assert (a + b)[1..] == a[1..] + b;
      var v := SextetValue(a[0]).value;
      assert Sextets(a).value == [v] + Sextets(a[1..]).value;
      assert [v] + (Sextets(a[1..]).value + Sextets(b).value) == Sextets(a).value + Sextets(b).value;
    }
  }

  lemma {:induction false} AlphabetHasSextets(s: string)
    requires InAlphabet(s)
    ensures Sextets(s).Some?
  {
    if s != "" {
      assert SextetValue(s[0]).Some?;
      assert InAlphabet(s[1..]);
      AlphabetHasSextets(s[1..]);
    }
  }

  // Decoding what was encoded gives the bytes back.
  lemma {:induction false} Base64RoundTrip(bytes: seq<Byte>)
    ensures Decode(Encode(bytes)) == Some(bytes)
  {
    EncodedFacts(bytes);
    AlphabetHasNoBreaks(Encode(bytes));
    AlphabetHasSextets(Encode(bytes));
    GroupsRoundTrip(bytes);
  }

  lemma {:induction false} SextetsOfChars(v: seq<nat>)
    requires forall i | 0 <= i < |v| :: v[i] < 64
    ensures Sextets(Chars(v)) == Some(v)
  {
    if v != [] {
      SextetsRoundTrip(v[0]);
      assert Chars(v)[1..] == Chars(v[1..]);
      SextetsOfChars(v[1..]);
      assert v == [v[0]] + v[1..];
    }
  }

  // Shifting bits together and apart again.
  lemma Shifted16(x: nat, y: nat)
    requires y < 16
    ensures (x * 16 + y) / 16 == x && (x * 16 + y) % 16 == y
  {
  }

  lemma Shifted4(x: nat, y: nat)
    requires y < 4
    ensures (x * 4 + y) / 4 == x && (x * 4 + y) % 4 == y
  {
  }

  lemma GroupRoundTrip(bytes: seq<Byte>)
    requires 1 <= |bytes| <= 3
    ensures GroupBytes(Group(bytes)) == bytes
  {
    var b0 := bytes[0] as int;
    var b1 := if |bytes| > 1 then bytes[1] as int else 0;
    var b2 := if |bytes| > 2 then bytes[2] as int else 0;
    Shifted16(b0 % 4, b1 / 16);
    Shifted4(b1 % 16, b2 / 64);
    assert b0 / 4 * 4 + b0 % 4 == b0;
    assert b1 / 16 * 16 + b1 % 16 == b1;
    assert b2 / 64 * 64 + b2 % 64 == b2;
  }

  lemma {:induction false} GroupsRoundTrip(bytes: seq<Byte>)
    requires Sextets(Encode(bytes)).Some?
    ensures DecodeGroups(Sextets(Encode(bytes)).value) == Some(bytes)
  {
    if 0 < |bytes| <= 3 {
      SextetsOfChars(Group(bytes));
      GroupRoundTrip(bytes);
    } else if |bytes| > 3 {
      var head, tail := Group(bytes[..3]), Encode(bytes[3..]);
      SextetsOfChars(head);
      EncodedFacts(bytes[3..]);
      AlphabetHasSextets(tail);
      SextetsOfConcat(Chars(head), tail);
      GroupsRoundTrip(bytes[3..]);
      GroupRoundTrip(bytes[..3]);
      var v := head + Sextets(tail).value;
      assert v[..4] == head && v[4..] == Sextets(tail).value && |v| > 4;
      assert bytes == bytes[..3] + bytes[3..];
    }
  }
}
