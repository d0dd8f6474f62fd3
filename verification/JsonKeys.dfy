/** The top-level key scanner of cmd/inject-provenance/main.go, against the grammar
    of RFC 8259 sections 2 to 7.  A character stands for one code point. */
module JsonKeys {
  import opened Hex

  // ----- the scanner

  /** Nesting depth, whether the next string at depth 1 is a name, and the names
      found so far. */
  datatype State = State(depth: int, expectKey: bool, keys: seq<string>)

  const START := State(0, false, [])

  /** How many characters precede the closing quote; a backslash takes the next
      character with it. */
  function BodyLength(s: string): (n: nat)
    ensures n <= |s|
  {
    if s == [] then 0
    else if s[0] == '\\' && |s| > 1 then 2 + BodyLength(s[2..])
    else if s[0] == '"' then 0
    else 1 + BodyLength(s[1..])
  }

  function AfterString(st: State, body: string): State {
    if st.expectKey && st.depth == 1 then State(1, false, st.keys + [body]) else st
  }

  function AfterChar(st: State, c: char): State {
    match c
    case '{' => State(st.depth + 1, st.expectKey || st.depth == 0, st.keys)
    case '}' => st.(depth := st.depth - 1)
    case '[' => st.(depth := st.depth + 1)
    case ']' => st.(depth := st.depth - 1)
    case ',' => st.(expectKey := st.expectKey || st.depth == 1)
    case _ => st
  }

  function Scan(raw: string, st: State): State {
    if raw == [] then st
    else if raw[0] == '"' then
      var n := BodyLength(raw[1..]);
      var st' := AfterString(st, raw[1..][..n]);
      if n + 2 <= |raw| then Scan(raw[n + 2..], st') else st'
    else Scan(raw[1..], AfterChar(st, raw[0]))
  }

  /** The scan from position i on; one past the end is the end. */
  function ScanFrom(raw: string, i: nat, st: State): State {
    if i <= |raw| then Scan(raw[i..], st) else st
  }

  /** Before a brace or a comma no string is a name: a string or an array gives none. */
  lemma {:induction false} NamesNeedOpening(raw: string)
    requires '{' !in raw && ',' !in raw
    ensures Scan(raw, START).keys == []
  {
    NothingExpected(raw, START);
  }

  lemma {:induction false} NothingExpected(raw: string, st: State)
    requires '{' !in raw && ',' !in raw && !st.expectKey
    ensures Scan(raw, st).keys == st.keys
  {
    hide BodyLength;
    if raw != [] {
      if raw[0] == '"' {
        var n := BodyLength(raw[1..]);
        if n + 2 <= |raw| {
          NothingExpected(raw[n + 2..], st);
        }
      } else {
        NothingExpected(raw[1..], AfterChar(st, raw[0]));
      }
    }
  }

  lemma CharStep(raw: string, i: nat, st: State)
    requires i < |raw| && raw[i] != '"'
    ensures ScanFrom(raw, i, st) == ScanFrom(raw, i + 1, AfterChar(st, raw[i]))
  {
    hide AfterChar;
    assert raw[i..][1..] == raw[i + 1..];
  }

  lemma StringStep(raw: string, i: nat, j: nat, st: State)
    requires i < j <= |raw| && raw[i] == '"' && BodyLength(raw[i + 1..]) == j - i - 1
    ensures ScanFrom(raw, i, st) == ScanFrom(raw, j + 1, AfterString(st, raw[i + 1..j]))
  {
    hide AfterString, BodyLength;
    var n := j - i - 1;
    assert raw[i..][1..] == raw[i + 1..];
    assert raw[i + 1..][..n] == raw[i + 1..j];
    assert j + 1 <= |raw| ==> raw[i..][n + 2..] == raw[j + 1..];
  }

  lemma BodyPair(raw: string, j: nat)
    requires j + 1 < |raw| && raw[j] == '\\'
    ensures BodyLength(raw[j..]) == 2 + BodyLength(raw[j + 2..])
  {
    assert raw[j..][2..] == raw[j + 2..];
  }

  lemma BodyChar(raw: string, j: nat)
    requires j < |raw| && raw[j] != '"' && (raw[j] == '\\' ==> j + 1 == |raw|)
    ensures BodyLength(raw[j..]) == 1 + BodyLength(raw[j + 1..])
  {
    assert raw[j..][1..] == raw[j + 1..];
  }

  lemma BodyStop(raw: string, j: nat)
    requires j <= |raw| && (j < |raw| ==> raw[j] == '"')
    ensures BodyLength(raw[j..]) == 0
  {
  }

  method TopLevelKeyOrder(raw: string) returns (out: seq<string>)
    ensures out == Scan(raw, START).keys
  {
    hide Scan, ScanFrom, BodyLength;
    out := [];
    var depth := 0;
    var expectKey := false;
    var i := 0;
    WholeScan(raw);
    while i < |raw|
      invariant 0 <= i
      invariant Scan(raw, START) == ScanFrom(raw, i, State(depth, expectKey, out))
      decreases |raw| - i
    {
      var c := raw[i];
      if c != '"' {
        CharStep(raw, i, State(depth, expectKey, out));
      }
      match c {
        case '{' =>
          depth := depth + 1;
          if depth == 1 {
            expectKey := true;
          }
        case '}' => depth := depth - 1;
        case '[' => depth := depth + 1;
        case ']' => depth := depth - 1;
        case ',' =>
          if depth == 1 {
            expectKey := true;
          }
        case '"' =>
          ghost var st := State(depth, expectKey, out);
          var j := i + 1;
          if expectKey && depth == 1 {
            var key: string;
            j, key := ReadKey(raw, i);
            out := out + [key];
            expectKey := false;
          } else {
            j := SkipString(raw, i);
          }
          StringStep(raw, i, j, st);
          i := j;
        case _ =>
      }
      i := i + 1;
    }
    EndOfScan(raw, i, State(depth, expectKey, out));
  }

  lemma WholeScan(raw: string)
    ensures ScanFrom(raw, 0, START) == Scan(raw, START)
  {
    assert raw[0..] == raw;
  }

  lemma EndOfScan(raw: string, i: nat, st: State)
    requires i >= |raw|
    ensures ScanFrom(raw, i, st) == st
  {
  }

  /** The loop that reads a name: stops at the closing quote, or at the end. */
  method ReadKey(raw: string, i: nat) returns (j: nat, key: string)
    requires i < |raw| && raw[i] == '"'
    ensures i < j <= |raw| && j == i + 1 + BodyLength(raw[i + 1..])
    ensures key == raw[i + 1..j]
  {
    hide BodyLength;
    j := i + 1;
    key := [];
    while j < |raw|
      invariant i + 1 <= j <= |raw|
      invariant key == raw[i + 1..j]
      invariant BodyLength(raw[i + 1..]) == j - (i + 1) + BodyLength(raw[j..])
    {
      if raw[j] == '\\' && j + 1 < |raw| {
        BodyPair(raw, j);
        key := key + [raw[j]] + [raw[j + 1]];
        j := j + 2;
        continue;
      }
      if raw[j] == '"' {
        break;
      }
      BodyChar(raw, j);
      key := key + [raw[j]];
      j := j + 1;
    }
    BodyStop(raw, j);
  }

  /** The loop that skips any other string. */
  method SkipString(raw: string, i: nat) returns (j: nat)
    requires i < |raw| && raw[i] == '"'
    ensures i < j <= |raw| && j == i + 1 + BodyLength(raw[i + 1..])
  {
    hide BodyLength;
    j := i + 1;
    while j < |raw|
      invariant i + 1 <= j <= |raw|
      invariant BodyLength(raw[i + 1..]) == j - (i + 1) + BodyLength(raw[j..])
    {
      if raw[j] == '\\' && j + 1 < |raw| {
        BodyPair(raw, j);
        j := j + 2;
        continue;
      }
      if raw[j] == '"' {
        break;
      }
      BodyChar(raw, j);
      j := j + 1;
    }
    BodyStop(raw, j);
  }

  // ----- the grammar

  /** A value with its own text.  White space is kept where the grammar allows it. */
  datatype Value =
    | EmptyObject(ws: string)
    | Object(members: Members)
    | EmptyArray(ws: string)
    | Array(items: Items)
    | Text(body: string)
    | Atom(text: string)

  datatype Member = Member(before: string, name: string, after: string, lead: string, value: Value, trail: string)
  datatype Members = OneMember(m: Member) | MoreMembers(m: Member, rest: Members)
  datatype Items = OneItem(before: string, value: Value, trail: string)
                 | MoreItems(before: string, value: Value, trail: string, rest: Items)

  predicate IsSpace(s: string) {
    forall i :: 0 <= i < |s| ==> s[i] == ' ' || s[i] == '\t' || s[i] == '\n' || s[i] == '\r'
  }

  /** The inside of a string: unescaped characters and escapes. */
  predicate IsBody(s: string) {
    if s == [] then true
    else if s[0] == '\\' then
      if |s| >= 6 && s[1] == 'u' then IsHex(s[2]) && IsHex(s[3]) && IsHex(s[4]) && IsHex(s[5]) && IsBody(s[6..])
      else
        && |s| >= 2
        && (s[1] == '"' || s[1] == '\\' || s[1] == '/' || s[1] == 'b' || s[1] == 'f' || s[1] == 'n' || s[1] == 'r' || s[1] == 't')
        && IsBody(s[2..])
    else s[0] != '"' && s[0] as int >= 0x20 && IsBody(s[1..])
  }

  /** One character is a body unless it is a quote, a backslash or a control; with
      a backslash in front, exactly when it is one of the eight of RFC 8259 section 7. */
  lemma ShortBodies(c: char)
    ensures IsBody([c]) <==> c != '"' && c != '\\' && c as int >= 0x20
    ensures IsBody(['\\', c]) <==> c in {'"', '\\', '/', 'b', 'f', 'n', 'r', 't'}
  {
    assert IsBody([]);
    assert ['\\', c][2..] == [] && [c][1..] == [];
  }

  predicate IsDigits(s: string) {
    s != [] && forall i :: 0 <= i < |s| ==> '0' <= s[i] <= '9'
  }

  predicate IsFraction(s: string) {
    s == [] || (s[0] == '.' && IsDigits(s[1..]))
  }

  predicate IsExponent(s: string) {
    s == [] || ((s[0] == 'e' || s[0] == 'E') &&
      (IsDigits(s[1..]) || (|s| > 1 && (s[1] == '+' || s[1] == '-') && IsDigits(s[2..]))))
  }

  /** A fraction is empty, or a point and digits; an exponent is empty, or a letter,
      a sign or none, and digits (RFC 8259 section 6). */
  lemma NumberParts(s: string)
    ensures IsDigits(s) <==> |s| > 0 && forall c :: c in s ==> c in "0123456789"
    ensures IsFraction(s) <==> s == "" || exists d :: IsDigits(d) && s == "." + d
    ensures IsExponent(s) <==> s == "" || exists e, sign, d ::
      IsDigits(d) && s == e + sign + d && e in {"e", "E"} && sign in {"", "+", "-"}
  {
    hide IsDigits;
    DigitsMean(s);
    if IsFraction(s) && s != "" {
      assert s == "." + s[1..];
    }
    if d :| IsDigits(d) && s == "." + d {
      assert s[1..] == d;
    }
    ExponentMeans(s);
  }

  lemma DigitsMean(s: string)
    ensures IsDigits(s) <==> |s| > 0 && forall c :: c in s ==> c in "0123456789"
  {
    var digits := "0123456789";
    forall c ensures '0' <= c <= '9' <==> c in digits {
      if '0' <= c <= '9' {
        assert digits[c as int - 48] == c;
      }
    }
    assert forall i :: 0 <= i < |s| ==> s[i] in s;
  }

  lemma ExponentMeans(s: string)
    ensures IsExponent(s) <==> s == "" || exists e, sign, d ::
      IsDigits(d) && s == e + sign + d && e in {"e", "E"} && sign in {"", "+", "-"}
  {
    hide IsDigits;
    if IsExponent(s) && s != "" {
      var e, plain := [s[0]], IsDigits(s[1..]);
      var sign, d := if plain then "" else [s[1]], if plain then s[1..] else s[2..];
      assert IsDigits(d) && s == e + sign + d && e in {"e", "E"} && sign in {"", "+", "-"};
    }
    if e, sign, d :| IsDigits(d) && s == e + sign + d && e in {"e", "E"} && sign in {"", "+", "-"} {
      if sign == "" {
        assert e + "" == e && s == e + d;
        assert s[0] == e[0] && s[1..] == d;
      } else {
        assert s[0] == e[0] && s[1] == sign[0] && s[2..] == d;
      }
    }
  }

  ghost predicate IsNumber(s: string) {
    exists minus, whole, fraction, exponent ::
      && s == minus + whole + fraction + exponent
      && (minus == "" || minus == "-")
      && IsDigits(whole) && (|whole| > 1 ==> whole[0] != '0')
      && IsFraction(fraction) && IsExponent(exponent)
  }

  ghost predicate IsAtom(s: string) {
    s == "true" || s == "false" || s == "null" || IsNumber(s)
  }

  ghost predicate ValueOk(v: Value) {
    match v
    case EmptyObject(ws) => IsSpace(ws)
    case Object(ms) => MembersOk(ms)
    case EmptyArray(ws) => IsSpace(ws)
    case Array(items) => ItemsOk(items)
    case Text(body) => IsBody(body)
    case Atom(text) => IsAtom(text)
  }

  ghost predicate MemberOk(m: Member) {
    IsSpace(m.before) && IsBody(m.name) && IsSpace(m.after) && IsSpace(m.lead) && ValueOk(m.value) && IsSpace(m.trail)
  }

  ghost predicate MembersOk(ms: Members) {
    MemberOk(ms.m) && (ms.MoreMembers? ==> MembersOk(ms.rest))
  }

  ghost predicate ItemsOk(items: Items) {
    && IsSpace(items.before) && ValueOk(items.value) && IsSpace(items.trail)
    && (items.MoreItems? ==> ItemsOk(items.rest))
  }

  function ValueText(v: Value): string {
    match v
    case EmptyObject(ws) => "{" + (ws + "}")
    case Object(ms) => "{" + (MembersText(ms) + "}")
    case EmptyArray(ws) => "[" + (ws + "]")
    case Array(items) => "[" + (ItemsText(items) + "]")
    case Text(body) => "\"" + (body + "\"")
    case Atom(text) => text
  }

  function MemberText(m: Member): string {
    m.before + ("\"" + (m.name + ("\"" + (m.after + (":" + (m.lead + (ValueText(m.value) + m.trail)))))))
  }

  function MembersText(ms: Members): string {
    match ms
    case OneMember(m) => MemberText(m)
    case MoreMembers(m, rest) => MemberText(m) + ("," + MembersText(rest))
  }

  function ItemsText(items: Items): string {
    match items
    case OneItem(before, v, trail) => before + (ValueText(v) + trail)
    case MoreItems(before, v, trail, rest) => before + (ValueText(v) + (trail + ("," + ItemsText(rest))))
  }

  /** The raw names of an object's members, in order. */
  function Names(ms: Members): seq<string> {
    match ms
    case OneMember(m) => [m.name]
    case MoreMembers(m, rest) => [m.name] + Names(rest)
  }

  // ----- scanning grammatical text

  predicate PlainChar(c: char) {
    c != '{' && c != '}' && c != '[' && c != ']' && c != ',' && c != '"'
  }

  ghost predicate PlainText(s: string) {
    forall i :: 0 <= i < |s| ==> PlainChar(s[i])
  }

  lemma {:induction false} ScanPlain(s: string, rest: string, st: State)
    requires PlainText(s)
    ensures Scan(s + rest, st) == Scan(rest, st)
  {
    if s == [] {
      assert s + rest == rest;
    } else {
      ScanPlain(s[1..], rest, st);
      assert (s + rest)[1..] == s[1..] + rest && (s + rest)[0] == s[0];
    }
  }

  lemma SpaceIsPlain(s: string)
    requires IsSpace(s)
    ensures PlainText(s)
  {
  }

  lemma AtomIsPlain(s: string)
    requires IsAtom(s)
    ensures PlainText(s)
  {
    hide IsFraction, IsExponent;
    if IsNumber(s) {
      var minus, whole, fraction, exponent :|
        && s == minus + whole + fraction + exponent
        && (minus == "" || minus == "-")
        && IsDigits(whole) && (|whole| > 1 ==> whole[0] != '0')
        && IsFraction(fraction) && IsExponent(exponent);
      ExponentIsPlain(exponent);
      FractionIsPlain(fraction);
      FourPlain(minus, whole, fraction, exponent);
    }
  }

  lemma FractionIsPlain(s: string)
    requires IsFraction(s)
    ensures PlainText(s)
  {
    assert forall i :: 1 <= i < |s| ==> s[i] == s[1..][i - 1];
  }

  lemma FourPlain(a: string, b: string, c: string, d: string)
    requires PlainText(a) && PlainText(b) && PlainText(c) && PlainText(d)
    ensures PlainText(a + b + c + d)
  {
    hide PlainChar;
  }

  lemma ExponentIsPlain(s: string)
    requires IsExponent(s)
    ensures PlainText(s)
  {
    if s != [] {
      if IsDigits(s[1..]) {
        assert forall i :: 1 <= i < |s| ==> s[i] == s[1..][i - 1];
      } else {
        assert forall i :: 2 <= i < |s| ==> s[i] == s[2..][i - 2];
      }
    }
  }

  /** The scanner finds the end of every grammatical string. */
  lemma {:induction false} BodyEnds(body: string, rest: string)
    requires IsBody(body)
    ensures BodyLength(body + "\"" + rest) == |body|
    decreases |body|
  {
    var s := body + "\"" + rest;
    if body == [] {
      assert s[0] == '"';
    } else if body[0] == '\\' && |body| >= 6 && body[1] == 'u' {
      assert s[2..] == body[2..] + "\"" + rest;
      HexRun(body[2..], body[6..], rest);
      BodyEnds(body[6..], rest);
      assert body[2..][4..] == body[6..];
    } else if body[0] == '\\' {
      assert s[2..] == body[2..] + "\"" + rest;
      BodyEnds(body[2..], rest);
    } else {
      assert s[1..] == body[1..] + "\"" + rest;
      BodyEnds(body[1..], rest);
    }
  }

  /** Four hex digits are four ordinary characters. */
  lemma HexRun(s: string, after: string, rest: string)
    requires |s| >= 4 && IsHex(s[0]) && IsHex(s[1]) && IsHex(s[2]) && IsHex(s[3]) && after == s[4..]
    ensures BodyLength(s + "\"" + rest) == 4 + BodyLength(after + "\"" + rest)
  {
    OneOrdinary(s, "\"" + rest);
    OneOrdinary(s[1..], "\"" + rest);
    OneOrdinary(s[2..], "\"" + rest);
    OneOrdinary(s[3..], "\"" + rest);
    assert s[1..][1..] == s[2..] && s[2..][1..] == s[3..] && s[3..][1..] == after;
    assert s + "\"" + rest == s + ("\"" + rest) && after + "\"" + rest == after + ("\"" + rest);
  }

  lemma OneOrdinary(s: string, rest: string)
    requires s != [] && s[0] != '\\' && s[0] != '"'
    ensures BodyLength(s + rest) == 1 + BodyLength(s[1..] + rest)
  {
    assert (s + rest)[1..] == s[1..] + rest;
  }

  lemma ScanString(body: string, rest: string, st: State)
    requires IsBody(body)
    ensures Scan("\"" + (body + ("\"" + rest)), st) == Scan(rest, AfterString(st, body))
  {
    hide *;
    var raw := "\"" + (body + ("\"" + rest));
    assert raw[0..] == raw && raw[0] == '"';
    assert raw[1..] == body + "\"" + rest;
    BodyEnds(body, rest);
    StringStep(raw, 0, |body| + 1, st);
    assert raw[1..|body| + 1] == body && raw[|body| + 2..] == rest;
    FromStart(raw, 0, st);
    FromStart(raw, |body| + 2, AfterString(st, body));
  }

  lemma FromStart(raw: string, i: nat, st: State)
    requires i <= |raw|
    ensures ScanFrom(raw, i, st) == Scan(raw[i..], st)
  {
  }

  lemma ScanOne(c: char, rest: string, st: State)
    requires c != '"'
    ensures Scan([c] + rest, st) == Scan(rest, AfterChar(st, c))
  {
    assert ([c] + rest)[1..] == rest;
  }

  /** Within the object and not expecting a name: a whole value leaves no trace. */
  ghost predicate Inside(st: State) {
    st.depth >= 1 && !st.expectKey
  }

  lemma {:induction false} ScanValue(v: Value, rest: string, st: State)
    requires ValueOk(v) && Inside(st)
    ensures Scan(ValueText(v) + rest, st) == Scan(rest, st)
    decreases v, 1
  {
    hide Scan, IsSpace, IsAtom, IsBody;
    var deep := st.(depth := st.depth + 1);
    match v
    case EmptyObject(ws) =>
      assert ValueText(v) + rest == ['{'] + (ws + (['}'] + rest));
      SpaceIsPlain(ws);
      ScanOne('{', ws + (['}'] + rest), st);
      ScanPlain(ws, ['}'] + rest, deep);
      ScanOne('}', rest, deep);
    case Object(ms) =>
      assert ValueText(v) + rest == ['{'] + (MembersText(ms) + (['}'] + rest));
      ScanOne('{', MembersText(ms) + (['}'] + rest), st);
      ScanMembersInside(ms, ['}'] + rest, deep);
      ScanOne('}', rest, deep);
    case EmptyArray(ws) =>
      assert ValueText(v) + rest == ['['] + (ws + ([']'] + rest));
      SpaceIsPlain(ws);
      ScanOne('[', ws + ([']'] + rest), st);
      ScanPlain(ws, [']'] + rest, deep);
      ScanOne(']', rest, deep);
    case Array(items) =>
      assert ValueText(v) + rest == ['['] + (ItemsText(items) + ([']'] + rest));
      ScanOne('[', ItemsText(items) + ([']'] + rest), st);
      ScanItems(items, [']'] + rest, deep);
      ScanOne(']', rest, deep);
    case Text(body) =>
      assert ValueText(v) + rest == "\"" + (body + ("\"" + rest));
      ScanString(body, rest, st);
    case Atom(text) =>
      AtomIsPlain(text);
      ScanPlain(text, rest, st);
  }

  /** A member, name included, seen from a state that takes the name as `named`. */
  lemma {:induction false} ScanMember(m: Member, rest: string, st: State)
    requires MemberOk(m) && Inside(AfterString(st, m.name))
    ensures Scan(MemberText(m) + rest, st) == Scan(rest, AfterString(st, m.name))
    decreases m, 0
  {
    hide Scan, IsSpace, IsBody, ValueText;
    var named := AfterString(st, m.name);
    var r5 := m.trail + rest;
    var r4 := m.lead + (ValueText(m.value) + r5);
    var r3 := m.after + ([':'] + r4);
    MemberAssoc(m.before, m.name, m.after, m.lead, ValueText(m.value), m.trail, rest);
    SpaceIsPlain(m.before);
    SpaceIsPlain(m.after);
    SpaceIsPlain(m.lead);
    SpaceIsPlain(m.trail);
    ScanPlain(m.before, "\"" + (m.name + ("\"" + r3)), st);
    ScanString(m.name, r3, st);
    ScanPlain(m.after, [':'] + r4, named);
    ScanOne(':', r4, named);
    ScanPlain(m.lead, ValueText(m.value) + r5, named);
    ScanValue(m.value, r5, named);
    ScanPlain(m.trail, rest, named);
  }

  lemma MemberAssoc(a: string, b: string, c: string, d: string, e: string, f: string, rest: string)
    ensures (a + ("\"" + (b + ("\"" + (c + (":" + (d + (e + f)))))))) + rest
         == a + ("\"" + (b + ("\"" + (c + ([':'] + (d + (e + (f + rest))))))))
  {
    assert (e + f) + rest == e + (f + rest);
    assert (d + (e + f)) + rest == d + (e + (f + rest));
    assert (":" + (d + (e + f))) + rest == [':'] + (d + (e + (f + rest)));
    assert (c + (":" + (d + (e + f)))) + rest == c + ([':'] + (d + (e + (f + rest))));
    assert ("\"" + (c + (":" + (d + (e + f))))) + rest == "\"" + (c + ([':'] + (d + (e + (f + rest)))));
    assert (b + ("\"" + (c + (":" + (d + (e + f)))))) + rest == b + ("\"" + (c + ([':'] + (d + (e + (f + rest))))));
    assert ("\"" + (b + ("\"" + (c + (":" + (d + (e + f))))))) + rest
        == "\"" + (b + ("\"" + (c + ([':'] + (d + (e + (f + rest)))))));
  }

  lemma {:induction false} ScanMembersInside(ms: Members, rest: string, st: State)
    requires MembersOk(ms) && Inside(st) && st.depth >= 2
    ensures Scan(MembersText(ms) + rest, st) == Scan(rest, st)
    decreases ms, 0
  {
    hide Scan, MemberText, MemberOk;
    match ms
    case OneMember(m) => ScanMember(m, rest, st);
    case MoreMembers(m, more) =>
      assert MembersText(ms) + rest == MemberText(m) + ([','] + (MembersText(more) + rest));
      ScanMember(m, [','] + (MembersText(more) + rest), st);
      ScanOne(',', MembersText(more) + rest, st);
      ScanMembersInside(more, rest, st);
  }

  lemma {:induction false} ScanItems(items: Items, rest: string, st: State)
    requires ItemsOk(items) && Inside(st) && st.depth >= 2
    ensures Scan(ItemsText(items) + rest, st) == Scan(rest, st)
    decreases items, 0
  {
    hide Scan, ValueText, IsSpace;
    SpaceIsPlain(items.before);
    SpaceIsPlain(items.trail);
    match items
    case OneItem(before, v, trail) =>
      assert ItemsText(items) + rest == before + (ValueText(v) + (trail + rest));
      ScanPlain(before, ValueText(v) + (trail + rest), st);
      ScanValue(v, trail + rest, st);
      ScanPlain(trail, rest, st);
    case MoreItems(before, v, trail, more) =>
      var r := [','] + (ItemsText(more) + rest);
      assert ItemsText(items) + rest == before + (ValueText(v) + (trail + r));
      ScanPlain(before, ValueText(v) + (trail + r), st);
      ScanValue(v, trail + r, st);
      ScanPlain(trail, r, st);
      ScanOne(',', ItemsText(more) + rest, st);
      ScanItems(more, rest, st);
  }

  /** At the top level every member adds its name. */
  lemma {:induction false} ScanMembersTop(ms: Members, rest: string, keys: seq<string>)
    requires MembersOk(ms)
    ensures Scan(MembersText(ms) + rest, State(1, true, keys)) == Scan(rest, State(1, false, keys + Names(ms)))
    decreases ms
  {
    hide Scan, MemberText, MemberOk;
    var st := State(1, true, keys);
    match ms
    case OneMember(m) => ScanMember(m, rest, st);
    case MoreMembers(m, more) =>
      assert MembersText(ms) + rest == MemberText(m) + ([','] + (MembersText(more) + rest));
      ScanMember(m, [','] + (MembersText(more) + rest), st);
      ScanOne(',', MembersText(more) + rest, State(1, false, keys + [m.name]));
      ScanMembersTop(more, rest, keys + [m.name]);
      assert (keys + [m.name]) + Names(more) == keys + Names(ms);
  }

  /** On every object text, whatever its nesting, strings, escapes and white space,
      the scanner returns the raw member names of the top level in order. */
  lemma ScannerFindsNames(before: string, ms: Members, after: string)
    requires IsSpace(before) && MembersOk(ms) && IsSpace(after)
    ensures Scan(before + (ValueText(Object(ms)) + after), START).keys == Names(ms)
  {
    hide Scan, MembersText, MembersOk;
    SpaceIsPlain(before);
    SpaceIsPlain(after);
    ScanPlain(before, ValueText(Object(ms)) + after, START);
    assert ValueText(Object(ms)) + after == ['{'] + (MembersText(ms) + (['}'] + after));
    ScanOne('{', MembersText(ms) + (['}'] + after), START);
    ScanMembersTop(ms, ['}'] + after, []);
    var st := State(1, false, [] + Names(ms));
    ScanOne('}', after, st);
    ScanPlain(after, [], st.(depth := 0));
    assert after + [] == after;
    ScanNothing(st.(depth := 0));
  }

  lemma ScanNothing(st: State)
    ensures Scan([], st) == st
  {
  }

  lemma ScannerFindsNothing(before: string, ws: string, after: string)
    requires IsSpace(before) && IsSpace(ws) && IsSpace(after)
    ensures Scan(before + (ValueText(EmptyObject(ws)) + after), START).keys == []
  {
    hide Scan;
    SpaceIsPlain(before);
    SpaceIsPlain(ws);
    SpaceIsPlain(after);
    ScanPlain(before, ValueText(EmptyObject(ws)) + after, START);
    assert ValueText(EmptyObject(ws)) + after == ['{'] + (ws + (['}'] + after));
    ScanOne('{', ws + (['}'] + after), START);
    var st := State(1, true, []);
    ScanPlain(ws, ['}'] + after, st);
    ScanOne('}', after, st);
    ScanPlain(after, [], st.(depth := 0));
    assert after + [] == after;
    ScanNothing(st.(depth := 0));
  }
}
