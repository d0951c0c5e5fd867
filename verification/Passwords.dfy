/** Stored password hashes: what Hash prints and what Verify accepts. Argon2id (RFC 9106) is a function
    that returns a key of the requested length. */
module Passwords {
  import opened Wrappers
  import opened Codecs
  import Text

  const SALT_LENGTH := 16
  const MAX_PASSWORD_CODE_POINTS := 128
  const MAX_ENCODED_LENGTH := 4096
  const MIN_MEMORY := 64
  const MAX_MEMORY := 256 * 1024
  const MAX_ITERATIONS := 32
  const MAX_PARALLELISM := 16
  const MIN_KEY_LENGTH := 16
  const MAX_KEY_LENGTH := 64
  const UINT32_LIMIT := 0x1_0000_0000
  const UINT8_LIMIT := 0x100

  datatype Config = Config(memory: nat, iterations: nat, parallelism: nat, keyLength: nat)

  type Derivation = (string, seq<Byte>, Config) -> seq<Byte>

  // validArgon2Config
  predicate ValidConfig(h: Config) {
    && MIN_MEMORY <= h.memory <= MAX_MEMORY && 1 <= h.iterations <= MAX_ITERATIONS
    && 1 <= h.parallelism <= MAX_PARALLELISM
    && MIN_KEY_LENGTH <= h.keyLength <= MAX_KEY_LENGTH && h.memory >= 8 * h.parallelism
  }

  // Strings here are always valid UTF-8.
  predicate ValidPassword(password: string) {
    |password| <= MAX_PASSWORD_CODE_POINTS
  }

  ghost predicate DerivesKeys(derive: Derivation) {
    forall password, salt, h :: |derive(password, salt, h)| == h.keyLength
  }

  // ---------- The printed form ----------

  function Parameters(h: Config): seq<string> {
    ["m=" + Decimal(h.memory), "t=" + Decimal(h.iterations), "p=" + Decimal(h.parallelism)]
  }

  function Fields(h: Config, salt: seq<Byte>, key: seq<Byte>): seq<string> {
    ["argon2id", "v=19", Text.Join(Parameters(h), ','), Encode(salt), Encode(key)]
  }

  function Printed(h: Config, salt: seq<Byte>, key: seq<Byte>): string {
    Text.Join(Fields(h, salt, key), '$')
  }

  method Hash(h: Config, password: string, salt: seq<Byte>, derive: Derivation) returns (r: Option<string>)
    requires |salt| == SALT_LENGTH
    ensures r.Some? <==> ValidPassword(password) && ValidConfig(h)
    ensures r.Some? ==> r.value == Printed(h, salt, derive(password, salt, h))
  {
    if !ValidPassword(password) || !ValidConfig(h) {
      return None;
    }
    var key := derive(password, salt, h);
    var parameters :=
      "m=" + Decimal(h.memory) + "," + ("t=" + Decimal(h.iterations)) + "," + ("p=" + Decimal(h.parallelism));
    JoinThree("m=" + Decimal(h.memory), "t=" + Decimal(h.iterations), "p=" + Decimal(h.parallelism), ',');
    JoinFive("argon2id", "v=19", parameters, Encode(salt), Encode(key), '$');
    r := Some("argon2id" + "$" + "v=19" + "$" + parameters + "$" + Encode(salt) + "$" + Encode(key));
  }

  lemma JoinThree(a: string, b: string, c: string, separator: char)
    ensures Text.Join([a, b, c], separator) == a + [separator] + b + [separator] + c
  {
    assert Text.Join([b, c], separator) == b + [separator] + c by {
      assert [b, c][1..] == [c];
    }
    assert [a, b, c][1..] == [b, c];
    assert Text.Join([a, b, c], separator) == a + [separator] + (b + [separator] + c);
  }

  lemma JoinFive(a: string, b: string, c: string, d: string, e: string, separator: char)
    ensures Text.Join([a, b, c, d, e], separator) ==
              a + [separator] + b + [separator] + c + [separator] + d + [separator] + e
  {
    JoinThree(c, d, e, separator);
    var tail := c + [separator] + d + [separator] + e;
    assert [a, b, c, d, e][1..] == [b, c, d, e] && [b, c, d, e][1..] == [c, d, e];
    assert Text.Join([b, c, d, e], separator) == b + [separator] + tail;
    assert Text.Join([a, b, c, d, e], separator) == a + [separator] + (b + [separator] + tail);
  }

  // The stored form, letter by letter.
  lemma PrintedText(h: Config, salt: seq<Byte>, key: seq<Byte>)
    ensures Printed(h, salt, key) ==
              "argon2id$v=19$m=" + Decimal(h.memory) + ",t=" + Decimal(h.iterations) + ",p=" + Decimal(h.parallelism)
              + "$" + Encode(salt) + "$" + Encode(key)
  {
    hide Decimal, Encode;
    PrintedFrom(Decimal(h.memory), Decimal(h.iterations), Decimal(h.parallelism), Encode(salt), Encode(key));
  }

  lemma PrintedFrom(m: string, t: string, p: string, salt: string, key: string)
    ensures Text.Join(["argon2id", "v=19", Text.Join(["m=" + m, "t=" + t, "p=" + p], ','), salt, key], '$') ==
              "argon2id$v=19$m=" + m + ",t=" + t + ",p=" + p + "$" + salt + "$" + key
  {
    hide Text.Join;
    JoinThree("m=" + m, "t=" + t, "p=" + p, ',');
    var parameters := ("m=" + m) + "," + ("t=" + t) + "," + ("p=" + p);
    assert parameters == "m=" + m + ",t=" + t + ",p=" + p;
    JoinFive("argon2id", "v=19", parameters, salt, key, '$');
    assert "argon2id" + "$" + "v=19" + "$" == "argon2id$v=19$";
  }

  // ---------- What Verify accepts ----------

  // A parameter token: its name, an equals sign and a positive number of the given width.
  predicate TokenGives(token: string, name: string, limit: nat, value: nat) {
    var parts := Split(token, '=');
    |parts| == 2 && parts[0] == name && FitsUint(parts[1], limit) && value == DigitsValue(parts[1]) && value > 0
  }

  predicate ParametersGive(text: string, h: Config) {
    var tokens := Split(text, ',');
    && |tokens| == 3 && TokenGives(tokens[0], "m", UINT32_LIMIT, h.memory)
    && TokenGives(tokens[1], "t", UINT32_LIMIT, h.iterations) && TokenGives(tokens[2], "p", UINT8_LIMIT, h.parallelism)
  }

  predicate Accepts(h: Config, password: string, encoded: string, derive: Derivation) {
    var parts := Split(encoded, '$');
    && ValidPassword(password) && Text.Utf8Length(encoded) <= MAX_ENCODED_LENGTH && ValidConfig(h)
    && |parts| == 5 && parts[0] == "argon2id" && parts[1] == "v=19" && ParametersGive(parts[2], h)
    && Text.Utf8Length(parts[3]) == EncodedLen(SALT_LENGTH) && Decode(parts[3]).Some?
    && |Decode(parts[3]).value| == SALT_LENGTH
    && Text.Utf8Length(parts[4]) == EncodedLen(h.keyLength) && Decode(parts[4]).Some?
    && |Decode(parts[4]).value| == h.keyLength
    && Decode(parts[4]).value == derive(password, Decode(parts[3]).value, h)
  }

  // parseArgon2Parameters, with the key length left at zero.
  method ParseParameters(text: string) returns (r: Option<Config>)
    ensures r.Some? <==> exists h :: ParametersGive(text, h)
    ensures r.Some? ==> forall h :: ParametersGive(text, h) <==> h == r.value.(keyLength := h.keyLength)
  {
    var tokens := Split(text, ',');
    if |tokens| != 3 {
      return None;
    }
    var values: seq<nat> := [];
    var seen: set<string> := {};
    var names := ["m", "t", "p"];
    for i := 0 to 3
      invariant |values| == i && seen == set k | 0 <= k < i :: names[k]
      invariant forall k | 0 <= k < i ::
        TokenGives(tokens[k], names[k], if k == 2 then UINT8_LIMIT else UINT32_LIMIT, values[k])
    {
      var parts := Split(tokens[i], '=');
      if |parts| != 2 || parts[0] == "" || parts[1] == "" || parts[0] in seen {
        return None;
      }
      seen := seen + {parts[0]};
      if parts[0] !in names {
        return None;
      }
      var value := ParseDecimalUint(parts[1], if parts[0] == "p" then UINT8_LIMIT else UINT32_LIMIT);
      if value.None? || value.value == 0 {
        return None;
      }
      if parts[0] != names[i] {
        return None;
      }
      values := values + [value.value];
    }
    r := Some(Config(values[0], values[1], values[2], 0));
    assert ParametersGive(text, r.value);
  }

  method Verify(h: Config, password: string, encoded: string, derive: Derivation) returns (ok: bool)
    ensures ok <==> Accepts(h, password, encoded, derive)
  {
    if !ValidPassword(password) || Text.Utf8Length(encoded) > MAX_ENCODED_LENGTH || !ValidConfig(h) {
      return false;
    }
    var parts := Split(encoded, '$');
    if |parts| != 5 || parts[0] != "argon2id" || parts[1] != "v=19" {
      return false;
    }
    var parameters := ParseParameters(parts[2]);
    if parameters.None? || parameters.value.memory != h.memory || parameters.value.iterations != h.iterations
       || parameters.value.parallelism != h.parallelism {
      return false;
    }
    if Text.Utf8Length(parts[3]) != EncodedLen(SALT_LENGTH) {
      return false;
    }
    var salt := Decode(parts[3]);
    if salt.None? || |salt.value| == 0 || |salt.value| != SALT_LENGTH {
      return false;
    }
    if Text.Utf8Length(parts[4]) != EncodedLen(h.keyLength) {
      return false;
    }
    var stored := Decode(parts[4]);
    if stored.None? || |stored.value| == 0 || |stored.value| != h.keyLength {
      return false;
    }
    var key := derive(password, salt.value, h);
    ok := stored.value == key;
  }

  // ---------- Verify accepts what Hash printed ----------

  predicate Ascii(s: string) {
    forall i | 0 <= i < |s| :: s[i] < '\U{0080}'
  }

  lemma {:induction false} AsciiLength(s: string)
    requires Ascii(s)
    ensures Text.Utf8Length(s) == |s|
  {
    if s != "" {
      AsciiLength(s[1..]);
    }
  }

  lemma EncodedIsPlain(bytes: seq<Byte>)
    ensures Ascii(Encode(bytes)) && '$' !in Encode(bytes)
  {
    EncodedFacts(bytes);
    forall i | 0 <= i < |Encode(bytes)| ensures Encode(bytes)[i] < '\U{0080}' && Encode(bytes)[i] != '$' {
      assert SextetValue(Encode(bytes)[i]).Some?;
    }
  }

  lemma TokenParses(name: string, n: nat, limit: nat)
    requires '=' !in name && 0 < n < limit
    ensures TokenGives(name + "=" + Decimal(n), name, limit, n)
    ensures forall other, value :: TokenGives(name + "=" + Decimal(n), other, limit, value) ==> value == n
  {
    SplitHead(name, '=', Decimal(n));
    SplitWord(Decimal(n), '=');
    DecimalValue(n);
  }

  lemma ParametersParse(h: Config, g: Config)
    requires ValidConfig(h)
    ensures ParametersGive(Text.Join(Parameters(h), ','), g) <==> g == h.(keyLength := g.keyLength)
  {
    forall token | token in Parameters(h) ensures ',' !in token {
    }
    SplitJoin(Parameters(h), ',');
    assert Parameters(h)[0] == "m" + "=" + Decimal(h.memory);
    assert Parameters(h)[1] == "t" + "=" + Decimal(h.iterations);
    assert Parameters(h)[2] == "p" + "=" + Decimal(h.parallelism);
    TokenParses("m", h.memory, UINT32_LIMIT);
    TokenParses("t", h.iterations, UINT32_LIMIT);
    TokenParses("p", h.parallelism, UINT8_LIMIT);
  }

  lemma ParametersPlain(h: Config)
    requires ValidConfig(h)
    ensures var text := Text.Join(Parameters(h), ','); Ascii(text) && '$' !in text && |text| <= 32
  {
    JoinThree("m=" + Decimal(h.memory), "t=" + Decimal(h.iterations), "p=" + Decimal(h.parallelism), ',');
    assert PowerOfTen(6) == 1000000 && PowerOfTen(2) == 100;
    DecimalLength(h.memory, 6);
    DecimalLength(h.iterations, 2);
    DecimalLength(h.parallelism, 2);
  }

  lemma PrintedSplits(h: Config, salt: seq<Byte>, key: seq<Byte>)
    requires ValidConfig(h)
    ensures Split(Printed(h, salt, key), '$') == Fields(h, salt, key)
  {
    ParametersPlain(h);
    EncodedIsPlain(salt);
    EncodedIsPlain(key);
    SplitJoin(Fields(h, salt, key), '$');
  }

  lemma AsciiJoin(a: string, b: string)
    requires Ascii(a) && Ascii(b)
    ensures Ascii(a + b)
  {
  }

  lemma {:induction false} JoinLength(parts: seq<string>, separator: char)
    requires separator < '\U{0080}' && forall p | p in parts :: Ascii(p) && |p| < 100
    ensures Ascii(Text.Join(parts, separator)) && |Text.Join(parts, separator)| <= |parts| * 100
  {
    if |parts| > 1 {
      assert parts[0] in parts && forall p | p in parts[1..] :: p in parts;
      JoinLength(parts[1..], separator);
      AsciiJoin(parts[0] + [separator], Text.Join(parts[1..], separator));
    } else if |parts| == 1 {
      assert parts[0] in parts;
    }
  }

  lemma PrintedFits(h: Config, salt: seq<Byte>, key: seq<Byte>)
    requires ValidConfig(h) && |salt| == SALT_LENGTH && |key| == h.keyLength
    ensures Text.Utf8Length(Printed(h, salt, key)) <= MAX_ENCODED_LENGTH
  {
    ParametersPlain(h);
    EncodedIsPlain(salt);
    EncodedIsPlain(key);
    EncodedFacts(salt);
    EncodedFacts(key);
    JoinLength(Fields(h, salt, key), '$');
    AsciiLength(Printed(h, salt, key));
  }

  // A hash printed under one configuration is accepted under exactly that configuration, and for exactly
  // the passwords that derive the same key.
  lemma VerifyAcceptsExactly(h: Config, password: string, salt: seq<Byte>, g: Config, other: string, derive: Derivation)
    requires ValidConfig(h) && ValidPassword(password) && |salt| == SALT_LENGTH && DerivesKeys(derive)
    ensures Accepts(g, other, Printed(h, salt, derive(password, salt, h)), derive)
      <==> g == h && ValidPassword(other) && derive(other, salt, h) == derive(password, salt, h)
  {
    var key := derive(password, salt, h);
    PrintedSplits(h, salt, key);
    PrintedFits(h, salt, key);
    ParametersParse(h, g);
    Base64RoundTrip(salt);
    Base64RoundTrip(key);
    EncodedFacts(salt);
    EncodedFacts(key);
    EncodedIsPlain(salt);
    EncodedIsPlain(key);
    AsciiLength(Encode(salt));
    AsciiLength(Encode(key));
  }
}
