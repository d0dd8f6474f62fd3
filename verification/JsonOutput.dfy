/** What cmd/inject-provenance writes, as a text: a JSON text or none. */
module JsonOutput {
  import opened JsonKeys
  import opened JsonInject
  import opened JsonDocument

  // ----- a test that every JSON text passes

  predicate Blank(c: char) {
    c == ' ' || c == '\t' || c == '\n' || c == '\r'
  }

  /** No colon is followed, white space aside, by a comma or a closing brace.  `due`
      says that a colon has been read and nothing since. */
  predicate Gapless(raw: string, due: bool) {
    if raw == [] then true
    else if raw[0] == '"' then
      var n := BodyLength(raw[1..]);
      if n + 2 <= |raw| then Gapless(raw[n + 2..], false) else true
    else if Blank(raw[0]) then Gapless(raw[1..], due)
    else if raw[0] == ':' then Gapless(raw[1..], true)
    else if due && (raw[0] == ',' || raw[0] == '}') then false
    else Gapless(raw[1..], false)
  }

  lemma {:induction false} GapSpace(s: string, rest: string, due: bool)
    requires IsSpace(s)
    ensures Gapless(s + rest, due) == Gapless(rest, due)
  {
    if s == [] {
      assert s + rest == rest;
    } else {
      GapSpace(s[1..], rest, due);
      assert (s + rest)[1..] == s[1..] + rest && (s + rest)[0] == s[0];
    }
  }

  lemma GapString(body: string, rest: string, due: bool)
    requires IsBody(body)
    ensures Gapless("\"" + (body + ("\"" + rest)), due) == Gapless(rest, false)
  {
    hide IsBody, BodyLength;
    var raw := "\"" + (body + ("\"" + rest));
    assert raw[0] == '"' && raw[1..] == body + "\"" + rest;
    BodyEnds(body, rest);
    assert raw[|body| + 2..] == rest;
  }

  lemma GapOne(c: char, rest: string, due: bool)
    requires c != '"' && !Blank(c)
    ensures Gapless([c] + rest, due) ==
      if c == ':' then Gapless(rest, true)
      else if due && (c == ',' || c == '}') then false
      else Gapless(rest, false)
  {
    assert ([c] + rest)[1..] == rest;
  }

  /** Characters that begin or continue a value. */
  predicate Dull(c: char) {
    PlainChar(c) && c != ':' && !Blank(c)
  }

  lemma {:induction false} GapDull(s: string, rest: string, due: bool)
    requires s != [] && forall i :: 0 <= i < |s| ==> Dull(s[i])
    ensures Gapless(s + rest, due) == Gapless(rest, false)
  {
    hide Gapless;
    assert s + rest == [s[0]] + (s[1..] + rest);
    GapOne(s[0], s[1..] + rest, due);
    if |s| > 1 {
      GapDull(s[1..], rest, false);
    } else {
      assert s[1..] + rest == rest;
    }
  }

  lemma DigitsDull(s: string)
    requires IsDigits(s)
    ensures forall i :: 0 <= i < |s| ==> Dull(s[i])
  {
  }

  lemma ExponentDull(s: string)
    requires IsExponent(s)
    ensures forall i :: 0 <= i < |s| ==> Dull(s[i])
  {
    if s != [] {
      if IsDigits(s[1..]) {
        assert forall i :: 1 <= i < |s| ==> s[i] == s[1..][i - 1];
      } else {
        assert forall i :: 2 <= i < |s| ==> s[i] == s[2..][i - 2];
      }
    }
  }

  lemma FractionDull(s: string)
    requires IsFraction(s)
    ensures forall i :: 0 <= i < |s| ==> Dull(s[i])
  {
    assert forall i :: 1 <= i < |s| ==> s[i] == s[1..][i - 1];
  }

  lemma AtomDull(s: string)
    requires IsAtom(s)
    ensures s != [] && forall i :: 0 <= i < |s| ==> Dull(s[i])
  {
    hide IsFraction, IsExponent;
    if IsNumber(s) {
      var minus, whole, fraction, exponent :|
        && s == minus + whole + fraction + exponent
        && (minus == "" || minus == "-")
        && IsDigits(whole) && (|whole| > 1 ==> whole[0] != '0')
        && IsFraction(fraction) && IsExponent(exponent);
      DigitsDull(whole);
      FractionDull(fraction);
      ExponentDull(exponent);
      FourDull(minus, whole, fraction, exponent);
    }
  }

  lemma FourDull(a: string, b: string, c: string, d: string)
    requires forall i :: 0 <= i < |a| ==> Dull(a[i])
    requires forall i :: 0 <= i < |b| ==> Dull(b[i])
    requires forall i :: 0 <= i < |c| ==> Dull(c[i])
    requires forall i :: 0 <= i < |d| ==> Dull(d[i])
    ensures forall i :: 0 <= i < |a + b + c + d| ==> Dull((a + b + c + d)[i])
  {
    hide Dull;
  }

  /** A value in braces or brackets. */
  lemma GapWrapped(open: char, inner: string, close: char, rest: string, due: bool)
    requires open == '{' || open == '['
    requires close == '}' || close == ']'
    requires Gapless(inner + ([close] + rest), false) == Gapless([close] + rest, false)
    ensures Gapless(([open] + (inner + [close])) + rest, due) == Gapless(rest, false)
  {
    hide Gapless;
    assert ([open] + (inner + [close])) + rest == [open] + (inner + ([close] + rest));
    GapOne(open, inner + ([close] + rest), due);
    GapOne(close, rest, false);
  }

  lemma {:induction false} GapValue(v: Value, rest: string, due: bool)
    requires ValueOk(v)
    ensures Gapless(ValueText(v) + rest, due) == Gapless(rest, false)
    decreases v, 1
  {
    hide Gapless, IsSpace, IsAtom, IsBody, MembersText, ItemsText, MembersOk, ItemsOk;
    match v
    case EmptyObject(ws) =>
      GapSpace(ws, ['}'] + rest, false);
      GapWrapped('{', ws, '}', rest, due);
    case Object(ms) =>
      GapMembers(ms, ['}'] + rest);
      GapWrapped('{', MembersText(ms), '}', rest, due);
    case EmptyArray(ws) =>
      GapSpace(ws, [']'] + rest, false);
      GapWrapped('[', ws, ']', rest, due);
    case Array(items) =>
      GapItems(items, [']'] + rest);
      GapWrapped('[', ItemsText(items), ']', rest, due);
    case Text(body) =>
      assert ValueText(v) + rest == "\"" + (body + ("\"" + rest));
      GapString(body, rest, due);
    case Atom(text) =>
      AtomDull(text);
      GapDull(text, rest, due);
  }

  lemma {:induction false} GapMember(m: Member, rest: string)
    requires MemberOk(m)
    ensures Gapless(MemberText(m) + rest, false) == Gapless(rest, false)
    decreases m, 0
  {
    hide Gapless, IsSpace, IsBody, ValueText;
    var r5 := m.trail + rest;
    var r4 := m.lead + (ValueText(m.value) + r5);
    var r3 := m.after + ([':'] + r4);
    MemberAssoc(m.before, m.name, m.after, m.lead, ValueText(m.value), m.trail, rest);
    GapSpace(m.before, "\"" + (m.name + ("\"" + r3)), false);
    GapString(m.name, r3, false);
    GapSpace(m.after, [':'] + r4, false);
    GapOne(':', r4, false);
    GapSpace(m.lead, ValueText(m.value) + r5, true);
    GapValue(m.value, r5, true);
    GapSpace(m.trail, rest, false);
  }

  lemma {:induction false} GapMembers(ms: Members, rest: string)
    requires MembersOk(ms)
    ensures Gapless(MembersText(ms) + rest, false) == Gapless(rest, false)
    decreases ms, 0
  {
    hide Gapless, MemberText, MemberOk;
    match ms
    case OneMember(m) => GapMember(m, rest);
    case MoreMembers(m, more) =>
      assert MembersText(ms) + rest == MemberText(m) + ([','] + (MembersText(more) + rest));
      GapMember(m, [','] + (MembersText(more) + rest));
      GapOne(',', MembersText(more) + rest, false);
      GapMembers(more, rest);
  }

  lemma {:induction false} GapItems(items: Items, rest: string)
    requires ItemsOk(items)
    ensures Gapless(ItemsText(items) + rest, false) == Gapless(rest, false)
    decreases items, 0
  {
    hide Gapless, ValueText, IsSpace;
    match items
    case OneItem(before, v, trail) =>
      assert ItemsText(items) + rest == before + (ValueText(v) + (trail + rest));
      GapSpace(before, ValueText(v) + (trail + rest), false);
      GapValue(v, trail + rest, false);
      GapSpace(trail, rest, false);
    case MoreItems(before, v, trail, more) =>
      var r := [','] + (ItemsText(more) + rest);
      assert ItemsText(items) + rest == before + (ValueText(v) + (trail + r));
      GapSpace(before, ValueText(v) + (trail + r), false);
      GapValue(v, trail + r, false);
      GapSpace(trail, r, false);
      GapOne(',', ItemsText(more) + rest, false);
      GapItems(more, rest);
  }

  /** A value with white space around it. */
  ghost predicate IsJson(s: string) {
    exists before, v, after :: IsSpace(before) && ValueOk(v) && IsSpace(after) && s == before + (ValueText(v) + after)
  }

  lemma JsonIsGapless(s: string)
    requires IsJson(s)
    ensures Gapless(s, false)
  {
    hide ValueOk, ValueText, IsSpace;
    var before, v, after :| IsSpace(before) && ValueOk(v) && IsSpace(after) && s == before + (ValueText(v) + after);
    GapSpace(before, ValueText(v) + after, false);
    GapValue(v, after, false);
    GapSpace(after, [], false);
    assert after + [] == after;
  }

  // ----- the printed file

  /** The texts written are those of the values in d, and nothing for other names. */
  ghost predicate Writes(ordered: seq<string>, doc: map<string, string>, d: map<string, Value>, prov: string) {
    forall k :: k in ordered ==>
      if k in d then ValueOk(d[k]) && ValueFor(k, doc, prov) == ValueText(d[k]) else ValueFor(k, doc, prov) == ""
  }

  /** One printed line, up to its value. */
  lemma LineGaps(name: string, value: string, tail: string)
    requires IsBody(name)
    ensures Gapless(("  \"" + (name + ("\": " + value))) + tail, false) == Gapless(value + tail, true)
  {
    hide Gapless, IsBody;
    var r := value + tail;
    assert ("  \"" + (name + ("\": " + value))) + tail == "  " + ("\"" + (name + ("\"" + ([':'] + (" " + r)))));
    assert IsSpace("  ") && IsSpace(" ");
    GapSpace("  ", "\"" + (name + ("\"" + ([':'] + (" " + r)))), false);
    GapString(name, [':'] + (" " + r), false);
    GapOne(':', " " + r, false);
    GapSpace(" ", r, true);
  }

  lemma GapHere(tail: string)
    ensures !Gapless("" + (",\n" + tail), true) && !Gapless("" + ("\n" + ("}" + tail)), true)
  {
    hide Gapless;
    assert "" + (",\n" + tail) == [','] + ("\n" + tail);
    GapOne(',', "\n" + tail, true);
    assert "" + ("\n" + ("}" + tail)) == "\n" + (['}'] + tail);
    assert IsSpace("\n");
    GapSpace("\n", ['}'] + tail, true);
    GapOne('}', tail, true);
  }

  /** A name looked up in vain leaves a gap in the lines. */
  lemma {:induction false} LinesGap(ordered: seq<string>, doc: map<string, string>, d: map<string, Value>, prov: string, k: string)
    requires ordered != [] && Writes(ordered, doc, d, prov) && k in ordered && k !in d
    ensures !Gapless(Lines(ordered, doc, prov) + "}\n", false)
  {
    hide Gapless, Marshal, ValueFor, ValueText, ValueOk, IsBody, Decoded;
    var x := ordered[0];
    MarshalReadsBack(x);
    var v := ValueFor(x, doc, prov);
    var line := "  \"" + (Marshal(x) + ("\": " + v));
    if |ordered| == 1 {
      assert Lines(ordered, doc, prov) + "}\n" == line + ("\n" + ("}" + "\n"));
      LineGaps(Marshal(x), v, "\n" + ("}" + "\n"));
      GapHere("\n");
    } else {
      var more := Lines(ordered[1..], doc, prov) + "}\n";
      assert Lines(ordered, doc, prov) + "}\n" == line + (",\n" + more);
      LineGaps(Marshal(x), v, ",\n" + more);
      if x in d {
        GapValue(d[x], ",\n" + more, true);
        assert ",\n" + more == [','] + ("\n" + more);
        GapOne(',', "\n" + more, false);
        assert IsSpace("\n");
        GapSpace("\n", more, false);
        assert k in ordered[1..];
        LinesGap(ordered[1..], doc, d, prov, k);
      } else {
        GapHere(more);
      }
    }
  }

  /** The file after a run. */
  function Output(before: string, ms: Members, after: string, prov: Value): string
    requires MembersOk(ms)
  {
    Printed(Ordered(Scan(SourceText(before, ms, after), START).keys), Texts(DocOf(ms)), ValueText(prov))
  }

  /** The file written is a JSON text if and only if no top-level name of the source
      is spelled with an escape. */
  lemma OutputIsJsonIff(before: string, ms: Members, after: string, prov: Value)
    requires SourceOk(before, ms, after) && ValueOk(prov)
    ensures IsJson(Output(before, ms, after, prov)) <==> EscapeFree(ms)
  {
    hide Scan, Ordered, Names, DocOf, MembersOk, EscapeFree, ValueOk, Printed, InOrder, ValueText, IsSpace, Gapless, MembersOf;
    if EscapeFree(ms) {
      InjectKeepsDocument(before, ms, after, prov);
      RefreshedIsJson(ms, prov);
    } else {
      FoundIffEscapeFree(ms);
      var k :| k in Names(ms) && k != PROVENANCE && k !in DocOf(ms);
      ScannerFindsNames(before, ms, after);
      OutputGap(ms, prov, k);
      if IsJson(Output(before, ms, after, prov)) {
        JsonIsGapless(Output(before, ms, after, prov));
      }
    }
  }

  lemma RefreshedIsJson(ms: Members, prov: Value)
    requires MembersOk(ms) && AllFound(ms) && SourceOk("", Refreshed(ms, prov), "\n")
    ensures IsJson(SourceText("", Refreshed(ms, prov), "\n"))
  {
    hide Refreshed, IsSpace;
    var v := Object(Refreshed(ms, prov));
    assert ValueOk(v);
    assert IsSpace("") && IsSpace("\n");
  }

  lemma OutputGap(ms: Members, prov: Value, k: string)
    requires MembersOk(ms) && ValueOk(prov) && k in Names(ms) && k != PROVENANCE && k !in DocOf(ms)
    ensures !Gapless(Printed(Ordered(Names(ms)), Texts(DocOf(ms)), ValueText(prov)), false)
  {
    hide Ordered, Names, DocOf, MembersOk, ValueOk, InOrder, ValueText, Gapless, Lines;
    var names, d := Ordered(Names(ms)), DocOf(ms)[PROVENANCE := prov];
    OrderedIs(Names(ms));
    NonEmpty(Names(ms));
    DocValuesOk(ms);
    AllWritten(names, DocOf(ms), prov);
    LinesGap(names, Texts(DocOf(ms)), d, ValueText(prov), k);
    var lines := Lines(names, Texts(DocOf(ms)), ValueText(prov));
    assert "{\n" + (lines + "}\n") == ['{'] + ("\n" + (lines + "}\n"));
    GapOne('{', "\n" + (lines + "}\n"), false);
    assert IsSpace("\n");
    GapSpace("\n", lines + "}\n", false);
  }

  lemma AllWritten(names: seq<string>, d: map<string, Value>, prov: Value)
    requires DocOk(d) && ValueOk(prov)
    ensures Writes(names, Texts(d), d[PROVENANCE := prov], ValueText(prov))
  {
    hide ValueText, ValueOk;
  }
}
