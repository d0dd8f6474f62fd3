/** Splitting, joining and percent-encoding of URI text.  A character stands for
    one byte of a Go string. */
module UriText {
  import opened Hex
  import opened Options

  // ----- strings.Split and strings.Join on a one-character separator

  function Split(s: string, sep: char): (parts: seq<string>)
    ensures parts != []
  {
    if s == [] then [[]]
    else
      var rest := Split(s[1..], sep);
      if s[0] == sep then [[]] + rest else [[s[0]] + rest[0]] + rest[1..]
  }

  function Join(parts: seq<string>, sep: char): string {
    if parts == [] then []
    else if |parts| == 1 then parts[0]
    else parts[0] + [sep] + Join(parts[1..], sep)
  }

  lemma {:induction false} JoinOfSplit(s: string, sep: char)
    ensures Join(Split(s, sep), sep) == s
  {
    if s != [] {
      var rest := Split(s[1..], sep);
      JoinOfSplit(s[1..], sep);
      var parts := Split(s, sep);
      if s[0] == sep {
        assert parts[1..] == rest;
      } else if |rest| > 1 {
        assert parts[1..] == rest[1..];
      }
    }
  }

  /** A separator-free piece in front of a separator is split off. */
  lemma {:induction false} SplitFirst(p: string, rest: string, sep: char)
    requires sep !in p
    ensures Split(p + [sep] + rest, sep) == [p] + Split(rest, sep)
  {
    if p == [] {
      assert ([] + [sep] + rest)[1..] == rest;
    } else {
      SplitFirst(p[1..], rest, sep);
      assert (p + [sep] + rest)[1..] == p[1..] + [sep] + rest;
      assert p == [p[0]] + p[1..];
    }
  }

  lemma {:induction false} SplitNone(p: string, sep: char)
    requires sep !in p
    ensures Split(p, sep) == [p]
  {
    if p != [] {
      SplitNone(p[1..], sep);
      assert p == [p[0]] + p[1..];
    }
  }

  /** Splitting undoes joining when the pieces, the last apart, hold no separator. */
  lemma {:induction false} SplitOfJoin(parts: seq<string>, last: string, sep: char)
    requires forall i :: 0 <= i < |parts| ==> sep !in parts[i]
    ensures Split(Join(parts + [last], sep), sep) == parts + Split(last, sep)
  {
    hide Split;
    if parts == [] {
      assert parts + [last] == [last];
    } else {
      var all := parts + [last];
      assert all[1..] == parts[1..] + [last] && all[0] == parts[0];
      SplitOfJoin(parts[1..], last, sep);
      SplitFirst(parts[0], Join(all[1..], sep), sep);
      assert parts + Split(last, sep) == [parts[0]] + (parts[1..] + Split(last, sep));
    }
  }

  // ----- strings.Cut at a character

  function UpTo(s: string, c: char): string {
    if s == [] || s[0] == c then [] else [s[0]] + UpTo(s[1..], c)
  }

  lemma {:induction false} UpToIs(s: string, c: char)
    ensures c !in UpTo(s, c)
    ensures if c in s then UpTo(s, c) + [c] <= s else UpTo(s, c) == s
  {
    if s != [] && s[0] != c {
      UpToIs(s[1..], c);
      assert s == [s[0]] + s[1..];
      if c in s {
        assert ([s[0]] + UpTo(s[1..], c)) + [c] == [s[0]] + (UpTo(s[1..], c) + [c]);
      }
    }
  }

  /** A text behind the first separator does not count. */
  lemma {:induction false} UpToSeparator(k: string, v: string, c: char)
    requires c !in k
    ensures UpTo(k + [c] + v, c) == k
  {
    if k == [] {
      assert ([] + [c] + v)[0] == c;
    } else {
      UpToSeparator(k[1..], v, c);
      assert (k + [c] + v)[1..] == k[1..] + [c] + v;
    }
  }

  // ----- percent-encoding

  ghost predicate IsBytes(s: string) {
    forall i :: 0 <= i < |s| ==> s[i] as int < 256
  }

  predicate Unreserved(c: char) {
    'A' <= c <= 'Z' || 'a' <= c <= 'z' || '0' <= c <= '9' || c == '-' || c == '_' || c == '.' || c == '~'
  }

  /** One byte: itself when unreserved, or a slash that is let through, or %XX. */
  function EncodeByte(c: char, encodeSlash: bool): string {
    if Unreserved(c) || (c == '/' && !encodeSlash) then [c]
    else ['%', UpperHex(c as int / 16 % 16), UpperHex(c as int % 16)]
  }

  /** Letters, digits and four marks stand for themselves, and a slash where it is let
      through; any other byte becomes a percent sign and two upper-case digits. */
  lemma EncodedByte(c: char, encodeSlash: bool)
    requires c as int < 256
    ensures var plain := 'a' <= c <= 'z' || 'A' <= c <= 'Z' || '0' <= c <= '9' || c in "-_.~" || (c == '/' && !encodeSlash);
      var digits, n := "0123456789ABCDEF", c as int;
      EncodeByte(c, encodeSlash) == if plain then [c] else ['%', digits[n / 16], digits[n % 16]]
  {
    hide UpperHex, Unreserved;
    UnreservedAre(c);
    UpperDigit(c as int / 16);
    UpperDigit(c as int % 16);
  }

  lemma UnreservedAre(c: char)
    ensures Unreserved(c) <==> 'a' <= c <= 'z' || 'A' <= c <= 'Z' || '0' <= c <= '9' || c in "-_.~"
  {
    var marks := "-_.~";
    assert c in marks <==> exists i :: 0 <= i < |marks| && marks[i] == c;
  }

  lemma UpperDigit(n: nat)
    requires n < 16
    ensures UpperHex(n) == "0123456789ABCDEF"[n]
  {
  }

  function Encode(s: string, encodeSlash: bool): string {
    if s == [] then [] else EncodeByte(s[0], encodeSlash) + Encode(s[1..], encodeSlash)
  }

  /** url.PathUnescape: a percent sign must be followed by two hex digits. */
  function Unescape(s: string): Option<string> {
    if s == [] then Some([])
    else if s[0] != '%' then Consed(s[0], Unescape(s[1..]))
    else if |s| < 3 || !IsHex(s[1]) || !IsHex(s[2]) then None
    else Consed((16 * HexValue(s[1]) + HexValue(s[2])) as char, Unescape(s[3..]))
  }

  function Consed(c: char, rest: Option<string>): Option<string> {
    match rest
    case None => None
    case Some(t) => Some([c] + t)
  }

  lemma UnescapeEncoded(c: char, encodeSlash: bool, tail: string)
    requires c as int < 256
    ensures Unescape(EncodeByte(c, encodeSlash) + tail) == Consed(c, Unescape(tail))
  {
    if Unreserved(c) || (c == '/' && !encodeSlash) {
      assert ([c] + tail)[1..] == tail;
    } else {
      hide Unescape, UpperHex, Unreserved;
      ByteDigits(c as int);
      UnescapeTriple(c as int / 16, c as int % 16, tail);
    }
  }

  lemma ByteDigits(n: nat)
    requires n < 256
    ensures n / 16 < 16 && n / 16 % 16 == n / 16 && 16 * (n / 16) + n % 16 == n
  {
  }

  lemma UnescapeTriple(hi: nat, lo: nat, tail: string)
    requires hi < 16 && lo < 16
    ensures Unescape(['%', UpperHex(hi), UpperHex(lo)] + tail) == Consed((16 * hi + lo) as char, Unescape(tail))
  {
    hide UpperHex, HexValue, IsHex;
    var whole := ['%', UpperHex(hi), UpperHex(lo)] + tail;
    assert whole[3..] == tail;
  }

  /** Percent-decoding undoes the encoding of every byte string, in both modes. */
  lemma {:induction false} UnescapeEncode(s: string, encodeSlash: bool)
    requires IsBytes(s)
    ensures Unescape(Encode(s, encodeSlash)) == Some(s)
  {
    if s != [] {
      UnescapeEncode(s[1..], encodeSlash);
      UnescapeEncoded(s[0], encodeSlash, Encode(s[1..], encodeSlash));
      assert s == [s[0]] + s[1..];
    }
  }

  /** Encoded text consists of unreserved characters, percent signs and, if let
      through, slashes: never a separator of a query string. */
  lemma {:induction false} EncodeAlphabet(s: string, encodeSlash: bool)
    ensures forall i :: 0 <= i < |Encode(s, encodeSlash)| ==>
      var c := Encode(s, encodeSlash)[i]; Unreserved(c) || c == '%' || (c == '/' && !encodeSlash)
  {
    if s != [] {
      EncodeAlphabet(s[1..], encodeSlash);
    }
  }

  /** Different byte strings are encoded differently. */
  lemma EncodeInjective(s: string, t: string, encodeSlash: bool)
    requires IsBytes(s) && IsBytes(t) && Encode(s, encodeSlash) == Encode(t, encodeSlash)
    ensures s == t
  {
    UnescapeEncode(s, encodeSlash);
    UnescapeEncode(t, encodeSlash);
  }

  /** Text without a percent sign stands for itself; any other gets shorter. */
  lemma {:induction false} UnescapeShrinks(s: string)
    ensures '%' !in s ==> Unescape(s) == Some(s)
    ensures Unescape(s).Some? && '%' in s ==> |Unescape(s).value| + 2 <= |s|
    ensures Unescape(s).Some? ==> |Unescape(s).value| <= |s|
    decreases |s|
  {
    hide HexValue;
    if s != [] {
      if s[0] != '%' {
        UnescapeShrinks(s[1..]);
        assert s == [s[0]] + s[1..];
      } else if |s| >= 3 {
        UnescapeShrinks(s[3..]);
      }
    }
  }

  // ----- unescaping a joined tail

  function Together(a: Option<string>, sep: string, b: Option<string>): Option<string> {
    if a == None || b == None then None else Some(a.value + sep + b.value)
  }

  /** No escape reaches across a character that is no part of one, so the two sides
      are decoded apart. */
  lemma {:induction false} UnescapeAcross(a: string, c: char, b: string)
    requires c != '%' && !IsHex(c)
    ensures Unescape(a + [c] + b) == Together(Unescape(a), [c], Unescape(b))
  {
    var whole := a + [c] + b;
    if a == [] {
      assert whole == [c] + b && whole[1..] == b;
      if Unescape(b).Some? {
        assert [] + [c] + Unescape(b).value == [c] + Unescape(b).value;
      }
    } else if a[0] != '%' {
      assert whole[1..] == a[1..] + [c] + b;
      UnescapeAcross(a[1..], c, b);
      ConsedTogether(a[0], Unescape(a[1..]), [c], Unescape(b));
    } else if |a| >= 3 {
      assert whole[3..] == a[3..] + [c] + b && whole[1] == a[1] && whole[2] == a[2];
      UnescapeAcross(a[3..], c, b);
      if IsHex(a[1]) && IsHex(a[2]) {
        ConsedTogether((16 * HexValue(a[1]) + HexValue(a[2])) as char, Unescape(a[3..]), [c], Unescape(b));
      }
    }
  }

  lemma UnescapeAcrossSlash(a: string, b: string)
    ensures Unescape(a + "/" + b) == Together(Unescape(a), "/", Unescape(b))
  {
    hide Unescape;
    UnescapeAcross(a, '/', b);
    assert "/" == ['/'];
  }

  lemma ConsedTogether(c: char, a: Option<string>, sep: string, b: Option<string>)
    ensures Consed(c, Together(a, sep, b)) == Together(Consed(c, a), sep, b)
  {
    if a.Some? && b.Some? {
      assert [c] + (a.value + sep + b.value) == ([c] + a.value) + sep + b.value;
    }
  }

  function UnescapeAll(parts: seq<string>): Option<seq<string>> {
    if parts == [] then Some([])
    else if Unescape(parts[0]) == None || UnescapeAll(parts[1..]) == None then None
    else Some([Unescape(parts[0]).value] + UnescapeAll(parts[1..]).value)
  }

  /** Unescaping the joined segments is joining the unescaped segments; either
      both fail or neither does. */
  lemma {:induction false} UnescapeJoined(parts: seq<string>)
    ensures Unescape(Join(parts, '/')) ==
      match UnescapeAll(parts) case None => None case Some(values) => Some(Join(values, '/'))
  {
    if |parts| == 1 {
      assert UnescapeAll(parts[1..]) == Some([]);
    } else if |parts| > 1 {
      UnescapeJoined(parts[1..]);
      UnescapeAcrossSlash(parts[0], Join(parts[1..], '/'));
      var rest := UnescapeAll(parts[1..]);
      if UnescapeAll(parts).Some? {
        var values := UnescapeAll(parts).value;
        assert values[1..] == rest.value && |values| > 1 by { SameCount(parts[1..]); }
      }
    }
  }

  lemma {:induction false} SameCount(parts: seq<string>)
    ensures UnescapeAll(parts).Some? ==>
      && |UnescapeAll(parts).value| == |parts|
      && forall i :: 0 <= i < |parts| ==> Unescape(parts[i]) == Some(UnescapeAll(parts).value[i])
  {
    hide Unescape;
    if parts != [] {
      SameCount(parts[1..]);
    }
  }
}
