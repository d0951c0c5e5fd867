/** The string operations of the Go standard library that the policy code relies on.
    A string is a sequence of Unicode scalar values. */
module Text {
  // unicode.IsSpace
  predicate IsSpace(c: char) {
    '\U{0009}' <= c <= '\U{000D}' || c == ' ' || c == '\U{0085}' || c == '\U{00A0}' || c == '\U{1680}'
    || '\U{2000}' <= c <= '\U{200A}' || c == '\U{2028}' || c == '\U{2029}' || c == '\U{202F}'
    || c == '\U{205F}' || c == '\U{3000}'
  }

  function TrimLeft(s: string): string {
    if s != "" && IsSpace(s[0]) then TrimLeft(s[1..]) else s
  }

  function TrimRight(s: string): string {
    if s != "" && IsSpace(s[|s| - 1]) then TrimRight(s[..|s| - 1]) else s
  }

  // strings.TrimSpace
  function TrimSpace(s: string): string {
    TrimRight(TrimLeft(s))
  }

  // The simple case folding of strings.EqualFold on the orbits that contain an ASCII letter: upper-case
  // letters, the Kelvin sign and the long s. Every other character is its own representative here.
  function FoldRune(c: char): char {
    if 'A' <= c <= 'Z' then (c as int - 'A' as int + 'a' as int) as char
    else if c == '\U{212A}' then 'k'
    else if c == '\U{017F}' then 's'
    else c
  }

  // strings.EqualFold
  predicate EqualFold(a: string, b: string) {
    |a| == |b| && forall i | 0 <= i < |a| :: FoldRune(a[i]) == FoldRune(b[i])
  }

  // The number of bytes of the UTF-8 encoding (section 3 of RFC 3629).
  function Utf8Length(s: string): nat {
    if s == "" then 0
    else (if s[0] < '\U{0080}' then 1 else if s[0] < '\U{0800}' then 2 else if s[0] < '\U{10000}' then 3 else 4)
         + Utf8Length(s[1..])
  }

  // Lower-case ASCII letters, digits and underscore, starting with a letter, at most 64 long: the
  // grammar of a permission segment and of a workspace role.
  predicate ValidSegment(s: string) {
    0 < |s| <= 64 && 'a' <= s[0] <= 'z'
    && forall i | 0 <= i < |s| :: 'a' <= s[i] <= 'z' || '0' <= s[i] <= '9' || s[i] == '_'
  }

  // Two valid segments that match after folding and trimming are the same string, so the tolerant
  // comparison of workspace roles never confuses two valid roles.
  lemma SegmentsMatchExactly(a: string, b: string)
    requires ValidSegment(a) && ValidSegment(b)
    ensures EqualFold(TrimSpace(a), TrimSpace(b)) <==> a == b
  {
    assert TrimSpace(a) == a && TrimSpace(b) == b;
    if EqualFold(a, b) {
      forall i | 0 <= i < |a| ensures a[i] == b[i] {
        assert FoldRune(a[i]) == a[i] && FoldRune(b[i]) == b[i];
      }
    }
  }

  // strings.Join with a one-character separator.
  function Join(parts: seq<string>, separator: char): string {
    if |parts| == 0 then ""
    else if |parts| == 1 then parts[0]
    else parts[0] + [separator] + Join(parts[1..], separator)
  }

  predicate Joinable(parts: seq<string>, separator: char) {
    forall p | p in parts :: p != "" && separator !in p
  }

  // The first separator of a joined list ends its first part.
  lemma JoinHead(parts: seq<string>, separator: char)
    requires |parts| > 0
    ensures var text := Join(parts, separator);
            var m := |parts[0]|;
            if |parts| == 1 then text == parts[0]
            else && |text| > m
                 && text[..m] == parts[0]
                 && text[m] == separator
                 && text[m + 1..] == Join(parts[1..], separator)
  {
    if |parts| > 1 {
      SplitAt(parts[0], separator, Join(parts[1..], separator));
    }
  }

  lemma SplitAt(head: string, separator: char, tail: string)
    ensures var text := head + [separator] + tail;
            |text| > |head| && text[..|head|] == head && text[|head|] == separator && text[|head| + 1..] == tail
  {
  }

  // Two texts with the same first separator position share the part before it.
  lemma SameFirstPart(text: string, m: nat, n: nat, separator: char)
    requires m <= |text| && n <= |text|
    requires m < |text| ==> text[m] == separator
    requires n < |text| ==> text[n] == separator
    requires separator !in text[..m] && separator !in text[..n]
    ensures m == n
  {
    forall i | 0 <= i < m ensures text[i] != separator {
      assert text[..m][i] == text[i];
    }
    forall i | 0 <= i < n ensures text[i] != separator {
      assert text[..n][i] == text[i];
    }
  }

  // Different lists of separator-free parts are never joined to the same text.
  lemma {:induction false} JoinInjective(a: seq<string>, b: seq<string>, separator: char)
    requires Joinable(a, separator) && Joinable(b, separator)
    requires Join(a, separator) == Join(b, separator)
    ensures a == b
  {
    if a != [] {
      JoinHead(a, separator);
      assert a[0] in a;
    }
    if b != [] {
      JoinHead(b, separator);
      assert b[0] in b;
    }
    if a != [] && b != [] {
      var text := Join(a, separator);
      assert text[..|a[0]|] == a[0] && text[..|b[0]|] == b[0];
      SameFirstPart(text, |a[0]|, |b[0]|, separator);
      if |a| > 1 {
        assert forall p | p in a[1..] :: p in a;
        assert forall p | p in b[1..] :: p in b;
        JoinInjective(a[1..], b[1..], separator);
      }
      assert a == [a[0]] + a[1..] && b == [b[0]] + b[1..];
    }
  }
}
