/** The ordered printer of cmd/inject-provenance/main.go: what the rewritten file
    means as a JSON document, and exactly when it keeps the source's values. */
module JsonInject {
  import opened Hex
  import opened JsonKeys

  const PROVENANCE := "_provenance"

  // ----- names as the JSON library reads and writes them

  /** The code unit of a \u escape at the head of s. */
  function CodeUnit(s: string): (n: nat)
    requires StartsUnicode(s)
    ensures n < 0x10000
  {
    HexValue(s[2]) * 4096 + HexValue(s[3]) * 256 + HexValue(s[4]) * 16 + HexValue(s[5])
  }

  predicate StartsUnicode(s: string) {
    |s| >= 6 && s[0] == '\\' && s[1] == 'u' && IsHex(s[2]) && IsHex(s[3]) && IsHex(s[4]) && IsHex(s[5])
  }

  predicate StartsLow(s: string) {
    StartsUnicode(s) && 0xDC00 <= CodeUnit(s) < 0xE000
  }

  lemma AfterUnicode(s: string)
    requires IsBody(s) && StartsUnicode(s)
    ensures IsBody(s[6..])
  {
  }

  function Unescaped(c: char): char {
    match c
    case 'b' => '\U{8}'
    case 'f' => '\U{c}'
    case 'n' => '\n'
    case 'r' => '\r'
    case 't' => '\t'
    case _ => c
  }

  /** The name a raw name stands for.  A pair of surrogate escapes is one character,
      a lone one is U+FFFD. */
  function Decoded(s: string): string
    requires IsBody(s)
  {
    if s == [] then []
    else if StartsUnicode(s) then
      AfterUnicode(s);
      var u := CodeUnit(s);
      if u < 0xD800 || u >= 0xE000 then [u as char] + Decoded(s[6..])
      else if u < 0xDC00 && StartsLow(s[6..]) then
        AfterUnicode(s[6..]);
        [(0x10000 + (u - 0xD800) * 0x400 + (CodeUnit(s[6..]) - 0xDC00)) as char] + Decoded(s[6..][6..])
      else ['\U{FFFD}'] + Decoded(s[6..])
    else if s[0] == '\\' then [Unescaped(s[1])] + Decoded(s[2..])
    else [s[0]] + Decoded(s[1..])
  }

  function UnicodeEscape(n: nat): (s: string)
    requires n < 0x10000
    ensures StartsUnicode(s) && |s| == 6
  {
    ['\\', 'u', LowerHex(n / 4096), LowerHex(n / 256 % 16), LowerHex(n / 16 % 16), LowerHex(n % 16)]
  }

  lemma UnicodeReadsBack(n: nat)
    requires n < 0x10000
    ensures CodeUnit(UnicodeEscape(n)) == n
  {
    hide LowerHex, HexValue;
    Sixteens(n);
  }

  lemma Sixteens(n: nat)
    ensures n / 4096 * 4096 + n / 256 % 16 * 256 + n / 16 % 16 * 16 + n % 16 == n
  {
    assert n / 16 / 16 == n / 256 && n / 256 / 16 == n / 4096;
  }

  /** A \u escape stands for its code unit, or for U+FFFD where that is half of a
      surrogate pair. */
  lemma UnitReads(n: nat, rest: string)
    requires n < 0x10000 && IsBody(rest) && !(0xD800 <= n < 0xDC00 && StartsLow(rest))
    ensures IsBody(UnicodeEscape(n) + rest)
    ensures Decoded(UnicodeEscape(n) + rest)
         == [if 0xD800 <= n <= 0xDFFF then '\U{FFFD}' else n as char] + Decoded(rest)
  {
    hide LowerHex, HexValue;
    EscapeReads(n, rest);
  }

  /** Two surrogate escapes together stand for the character that UTF-16 splits
      into them. */
  lemma PairReads(c: char, rest: string)
    requires c as int >= 0x10000 && IsBody(rest)
    ensures var high, low := 0xD800 + (c as int - 0x10000) / 1024, 0xDC00 + c as int % 1024;
      && high <= 0xDBFF && low <= 0xDFFF
      && IsBody(UnicodeEscape(high) + (UnicodeEscape(low) + rest))
      && Decoded(UnicodeEscape(high) + (UnicodeEscape(low) + rest)) == [c] + Decoded(rest)
  {
    hide LowerHex, HexValue, Decoded, CodeUnit, UnicodeEscape, StartsUnicode, IsBody;
    var high, low := 0xD800 + (c as int - 0x10000) / 1024, 0xDC00 + c as int % 1024;
    PairNumber(c as int);
    EscapeReads(low, rest);
    EscapeReads(high, UnicodeEscape(low) + rest);
    PairStep(UnicodeEscape(high) + (UnicodeEscape(low) + rest));
  }

  lemma PairNumber(n: nat)
    requires 0x10000 <= n < 0x110000
    ensures var high, low := 0xD800 + (n - 0x10000) / 1024, 0xDC00 + n % 1024;
      high <= 0xDBFF && low <= 0xDFFF && 0x10000 + (high - 0xD800) * 0x400 + (low - 0xDC00) == n
  {
  }

  lemma PairStep(s: string)
    requires IsBody(s) && StartsUnicode(s) && 0xD800 <= CodeUnit(s) < 0xDC00
    requires IsBody(s[6..]) && StartsLow(s[6..]) && IsBody(s[6..][6..])
    ensures Decoded(s)
         == [(0x10000 + (CodeUnit(s) - 0xD800) * 0x400 + (CodeUnit(s[6..]) - 0xDC00)) as char] + Decoded(s[6..][6..])
  {
    hide CodeUnit, IsBody;
  }

  lemma EscapeReads(n: nat, rest: string)
    requires n < 0x10000 && IsBody(rest)
    ensures var s := UnicodeEscape(n) + rest; IsBody(s) && StartsUnicode(s) && CodeUnit(s) == n && s[6..] == rest
  {
    hide LowerHex, HexValue;
    UnicodeReadsBack(n);
  }

  /** Characters the library never writes as they are, quote and backslash aside:
      controls, and what could end a script element or a line of one. */
  predicate Guarded(c: char) {
    c as int < 0x20 || c == '<' || c == '>' || c == '&' || c == '\U{2028}' || c == '\U{2029}'
  }

  function EscapeChar(c: char): string {
    match c
    case '"' => "\\\""
    case '\\' => "\\\\"
    case '\U{8}' => "\\b"
    case '\U{c}' => "\\f"
    case '\n' => "\\n"
    case '\r' => "\\r"
    case '\t' => "\\t"
    case _ => if Guarded(c) then UnicodeEscape(c as int) else [c]
  }

  lemma LowerDigit(n: nat)
    requires n < 16
    ensures LowerHex(n) == "0123456789abcdef"[n]
  {
  }

  /** How each character is printed: the short escapes, four lower-case digits for
      what is guarded, and itself. */
  lemma EscapeTable(c: char)
    ensures c in {'"', '\\'} ==> EscapeChar(c) == ['\\', c]
    ensures EscapeChar('\U{8}') == "\\b" && EscapeChar('\U{c}') == "\\f" && EscapeChar('\n') == "\\n"
    ensures EscapeChar('\r') == "\\r" && EscapeChar('\t') == "\\t"
    ensures (c < ' ' && c !in {'\U{8}', '\U{c}', '\n', '\r', '\t'}) || c in {'<', '>', '&', '\U{2028}', '\U{2029}'} ==>
      var n, digits := c as int, "0123456789abcdef";
      EscapeChar(c) == ['\\', 'u', digits[n / 4096], digits[n / 256 % 16], digits[n / 16 % 16], digits[n % 16]]
    ensures c >= ' ' && c !in {'"', '\\', '<', '>', '&', '\U{2028}', '\U{2029}'} ==> EscapeChar(c) == [c]
  {
    hide LowerHex;
    var n := c as int;
    if n < 0x10000 {
      LowerDigit(n / 4096);
      LowerDigit(n / 256 % 16);
      LowerDigit(n / 16 % 16);
      LowerDigit(n % 16);
    }
  }

  /** The inside of the string the library prints for a name. */
  function Marshal(name: string): string {
    if name == [] then [] else EscapeChar(name[0]) + Marshal(name[1..])
  }

  lemma EscapeReadsBack(c: char, rest: string)
    requires IsBody(rest)
    ensures IsBody(EscapeChar(c) + rest) && Decoded(EscapeChar(c) + rest) == [c] + Decoded(rest)
  {
    var s := EscapeChar(c) + rest;
    if |EscapeChar(c)| == 1 {
      assert s[1..] == rest;
    } else if |EscapeChar(c)| == 2 {
      assert s[2..] == rest;
      assert s[0] == '\\' && s[1] != 'u';
    } else {
      assert s[6..] == rest;
      UnicodeReadsBack(c as int);
      assert StartsUnicode(s) && CodeUnit(s) == c as int;
    }
  }

  /** Every name the library prints is a string body that reads back as the name. */
  lemma {:induction false} MarshalReadsBack(name: string)
    ensures IsBody(Marshal(name)) && Decoded(Marshal(name)) == name
  {
    hide IsBody, Decoded, EscapeChar;
    if name == [] {
      NoBody();
    } else {
      MarshalReadsBack(name[1..]);
      EscapeReadsBack(name[0], Marshal(name[1..]));
    }
  }

  lemma NoBody()
    ensures IsBody([]) && Decoded([]) == []
  {
  }

  predicate HasEscape(s: string) {
    '\\' in s
  }

  lemma {:induction false} MarshalPlainIff(name: string)
    ensures HasEscape(Marshal(name)) <==> exists i :: 0 <= i < |name| && (Guarded(name[i]) || name[i] == '"' || name[i] == '\\')
  {
    if name != [] {
      MarshalPlainIff(name[1..]);
      EscapePlainIff(name[0]);
      assert Marshal(name) == EscapeChar(name[0]) + Marshal(name[1..]);
      if i :| 0 <= i < |name[1..]| && (Guarded(name[1..][i]) || name[1..][i] == '"' || name[1..][i] == '\\') {
        assert name[1..][i] == name[i + 1];
      }
      if i :| 0 <= i < |name| && (Guarded(name[i]) || name[i] == '"' || name[i] == '\\') {
        assert i > 0 ==> name[i] == name[1..][i - 1];
      }
    }
  }

  lemma EscapePlainIff(c: char)
    ensures HasEscape(EscapeChar(c)) <==> Guarded(c) || c == '"' || c == '\\'
  {
    if Guarded(c) || c == '"' || c == '\\' {
      assert EscapeChar(c)[0] == '\\';
    }
  }

  /** Without an escape a raw name is the name. */
  lemma {:induction false} PlainIsDecoded(s: string)
    requires IsBody(s) && !HasEscape(s)
    ensures Decoded(s) == s
  {
    if s != [] {
      PlainIsDecoded(s[1..]);
      assert s == [s[0]] + s[1..];
    }
  }

  /** Reading a name makes it shorter when it has an escape, and never invents
      a backslash. */
  lemma {:induction false} DecodedShrinks(s: string)
    requires IsBody(s)
    ensures |Decoded(s)| <= |s|
    ensures HasEscape(s) ==> |Decoded(s)| < |s|
    ensures HasEscape(Decoded(s)) ==> HasEscape(s)
    decreases |s|
  {
    if s == [] {
    } else if StartsUnicode(s) {
      var u := CodeUnit(s);
      if 0xD800 <= u < 0xDC00 && StartsLow(s[6..]) {
        DecodedShrinks(s[6..][6..]);
      } else {
        DecodedShrinks(s[6..]);
      }
    } else if s[0] == '\\' {
      DecodedShrinks(s[2..]);
    } else {
      DecodedShrinks(s[1..]);
      assert s == [s[0]] + s[1..];
    }
  }

  // ----- the order of the names

  /** The keys in order of first appearance, those already seen left out. */
  function Distinct(keys: seq<string>, seen: set<string>): seq<string> {
    if keys == [] then []
    else if keys[0] in seen then Distinct(keys[1..], seen)
    else [keys[0]] + Distinct(keys[1..], seen + {keys[0]})
  }

  function Ordered(keys: seq<string>): seq<string> {
    [PROVENANCE] + Distinct(keys, {PROVENANCE})
  }

  function FirstAt(keys: seq<string>, k: string): (i: nat)
    requires k in keys
    ensures i < |keys| && keys[i] == k && k !in keys[..i]
  {
    if keys[0] == k then 0 else 1 + FirstAt(keys[1..], k)
  }

  ghost predicate InOrder(keys: seq<string>, r: seq<string>) {
    && (forall i :: 0 <= i < |r| ==> r[i] in keys)
    && (forall i, j :: 0 <= i < j < |r| ==> FirstAt(keys, r[i]) < FirstAt(keys, r[j]))
  }

  lemma {:induction false} DistinctIsFirsts(keys: seq<string>, seen: set<string>)
    ensures forall k :: k in Distinct(keys, seen) <==> k in keys && k !in seen
    ensures InOrder(keys, Distinct(keys, seen))
  {
    hide FirstAt, InOrder;
    if keys == [] {
      NothingInOrder(keys);
    } else {
      var seen' := seen + {keys[0]};
      DistinctIsFirsts(keys[1..], seen');
      var r := Distinct(keys[1..], seen');
      assert keys[0] in seen ==> seen' == seen;
      InOrderCons(keys, r);
    }
  }

  lemma NothingInOrder(keys: seq<string>)
    ensures InOrder(keys, [])
  {
  }

  lemma InOrderCons(keys: seq<string>, r: seq<string>)
    requires keys != [] && InOrder(keys[1..], r) && keys[0] !in r
    ensures InOrder(keys, r) && InOrder(keys, [keys[0]] + r)
  {
    hide FirstAt;
    FirstHead(keys);
    forall i | 0 <= i < |r|
      ensures r[i] in keys && FirstAt(keys, r[i]) == 1 + FirstAt(keys[1..], r[i])
    {
      assert r[i] in r;
      FirstTail(keys, r[i]);
    }
    var s := [keys[0]] + r;
    forall i, j | 0 <= i < j < |s|
      ensures s[i] in keys && s[j] in keys && FirstAt(keys, s[i]) < FirstAt(keys, s[j])
    {
      assert s[j] == r[j - 1] && (i > 0 ==> s[i] == r[i - 1]);
    }
  }

  lemma FirstTail(keys: seq<string>, k: string)
    requires keys != [] && k != keys[0] && k in keys[1..]
    ensures FirstAt(keys, k) == 1 + FirstAt(keys[1..], k)
  {
  }

  lemma FirstHead(keys: seq<string>)
    requires keys != []
    ensures FirstAt(keys, keys[0]) == 0
  {
  }

  /** `_provenance` first, then every other key once, in order of first appearance. */
  lemma OrderedIs(keys: seq<string>)
    ensures var r := Ordered(keys);
            && r[0] == PROVENANCE
            && (forall k :: k in r <==> k == PROVENANCE || k in keys)
            && (forall i, j :: 0 <= i < j < |r| ==> r[i] != r[j])
            && InOrder(keys, r[1..])
  {
    hide Distinct, FirstAt, InOrder;
    var d := Distinct(keys, {PROVENANCE});
    DistinctIsFirsts(keys, {PROVENANCE});
    InOrderDiffers(keys, d);
    var r := Ordered(keys);
    assert r[1..] == d;
    forall k | k in d
      ensures k in r
    {
      var i :| 0 <= i < |d| && d[i] == k;
      assert r[i + 1] == k;
    }
    forall i, j | 0 <= i < j < |r|
      ensures r[i] != r[j]
    {
      assert r[j] == d[j - 1] && r[j] in d;
      assert i > 0 ==> r[i] == d[i - 1];
    }
  }

  lemma InOrderDiffers(keys: seq<string>, r: seq<string>)
    requires InOrder(keys, r)
    ensures forall i, j :: 0 <= i < j < |r| ==> r[i] != r[j]
  {
    hide FirstAt;
    forall i, j | 0 <= i < j < |r|
      ensures r[i] != r[j]
    {
      assert FirstAt(keys, r[i]) < FirstAt(keys, r[j]);
    }
  }

  method OrderKeys(keyOrder: seq<string>) returns (ordered: seq<string>)
    ensures ordered == Ordered(keyOrder)
  {
    ordered := [];
    var seen := {PROVENANCE};
    ordered := ordered + [PROVENANCE];
    for i := 0 to |keyOrder|
      invariant PROVENANCE in seen
      invariant Ordered(keyOrder) == ordered + Distinct(keyOrder[i..], seen)
    {
      var k := keyOrder[i];
      assert keyOrder[i..][1..] == keyOrder[i + 1..];
      if k == PROVENANCE {
        continue;
      }
      if k in seen {
        continue;
      }
      seen := seen + {k};
      ordered := ordered + [k];
    }
  }

  // ----- the printed file

  function ValueFor(k: string, doc: map<string, string>, prov: string): string {
    if k == PROVENANCE then prov else if k in doc then doc[k] else ""
  }

  function Lines(ordered: seq<string>, doc: map<string, string>, prov: string): string
    requires ordered != []
  {
    var line := "  \"" + (Marshal(ordered[0]) + ("\": " + ValueFor(ordered[0], doc, prov)));
    if |ordered| == 1 then line + "\n" else line + (",\n" + Lines(ordered[1..], doc, prov))
  }

  function Printed(ordered: seq<string>, doc: map<string, string>, prov: string): string
    requires ordered != []
  {
    "{\n" + (Lines(ordered, doc, prov) + "}\n")
  }

  predicate Current(doc: map<string, string>, prov: string) {
    PROVENANCE in doc && doc[PROVENANCE] == prov
  }

  /** The file after a run: `doc` is what the JSON library read from `raw`. */
  function Injected(raw: string, doc: map<string, string>, prov: string): string {
    if Current(doc, prov) then raw else Printed(Ordered(Scan(raw, START).keys), doc, prov)
  }

  method Lookup(k: string, doc: map<string, string>, prov: string) returns (v: string)
    ensures v == ValueFor(k, doc, prov)
  {
    if k == PROVENANCE {
      v := prov;
    } else if k in doc {
      v := doc[k];
    } else {
      v := "";
    }
  }

  method InjectInto(raw: string, doc: map<string, string>, prov: string) returns (changed: bool, file: string)
    ensures changed <==> ("_provenance" in doc ==> doc["_provenance"] != prov)
    ensures file == Injected(raw, doc, prov)
    ensures !changed ==> file == raw
  {
    hide Scan, Lines, Printed, Ordered, Distinct, Marshal, ValueFor;
    if PROVENANCE in doc {
      var existing := doc[PROVENANCE];
      if existing == prov {
        return false, raw;
      }
    }
    var keyOrder := TopLevelKeyOrder(raw);
    var ordered := OrderKeys(keyOrder);
    NonEmpty(keyOrder);
    var out := "{\n";
    for i := 0 to |ordered|
      invariant i < |ordered| ==> "{\n" + Lines(ordered, doc, prov) == out + Lines(ordered[i..], doc, prov)
      invariant i == |ordered| ==> "{\n" + Lines(ordered, doc, prov) == out
    {
      LinesStep(ordered, i, doc, prov, out);
      var k := ordered[i];
      out := out + "  ";
      out := out + ("\"" + Marshal(k) + "\"");
      out := out + ": ";
      var v := Lookup(k, doc, prov);
      out := out + v;
      if i < |ordered| - 1 {
        out := out + ",";
      }
      out := out + "\n";
    }
    PrintedParts(ordered, doc, prov);
    out := out + "}\n";
    return true, out;
  }

  lemma NonEmpty(keys: seq<string>)
    ensures Ordered(keys) != []
  {
  }

  lemma PrintedParts(ordered: seq<string>, doc: map<string, string>, prov: string)
    requires ordered != []
    ensures Printed(ordered, doc, prov) == ("{\n" + Lines(ordered, doc, prov)) + "}\n"
  {
    hide Lines;
  }

  lemma LinesStep(ordered: seq<string>, i: nat, doc: map<string, string>, prov: string, out: string)
    requires i < |ordered|
    ensures var line := out + "  " + ("\"" + Marshal(ordered[i]) + "\"") + ": " + ValueFor(ordered[i], doc, prov);
            out + Lines(ordered[i..], doc, prov) == if i == |ordered| - 1 then line + "\n" else line + "," + "\n" + Lines(ordered[i + 1..], doc, prov)
  {
    hide Marshal, ValueFor;
    assert i < |ordered| - 1 ==> ordered[i..][1..] == ordered[i + 1..];
  }
}
