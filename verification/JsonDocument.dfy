/** What a run of cmd/inject-provenance does to a file read as a JSON document. */
module JsonDocument {
  import opened JsonKeys
  import opened JsonInject

  // ----- documents

  /** The names and values of an object; of equal names the last one counts. */
  function DocOf(ms: Members): map<string, Value>
    requires MembersOk(ms)
  {
    assert MemberOk(ms.m);
    match ms
    case OneMember(m) => map[Decoded(m.name) := m.value]
    case MoreMembers(m, rest) => map[Decoded(m.name) := m.value] + DocOf(rest)
  }

  /** The texts the JSON library hands over. */
  function Texts(d: map<string, Value>): map<string, string> {
    map k | k in d :: ValueText(d[k])
  }

  ghost predicate EscapeFree(ms: Members) {
    forall k :: k in Names(ms) ==> !HasEscape(k)
  }

  lemma {:induction false} NamesAreBodies(ms: Members)
    requires MembersOk(ms)
    ensures forall k :: k in Names(ms) ==> IsBody(k)
  {
    hide IsBody;
    if ms.MoreMembers? {
      NamesAreBodies(ms.rest);
    }
  }

  lemma {:induction false} DocKeys(ms: Members)
    requires MembersOk(ms)
    ensures forall k :: k in Names(ms) ==> IsBody(k) && Decoded(k) in DocOf(ms)
    ensures forall k :: k in DocOf(ms) ==> exists n :: n in Names(ms) && IsBody(n) && Decoded(n) == k
  {
    hide IsBody, Decoded;
    NamesAreBodies(ms);
    match ms
    case OneMember(m) =>
      assert Names(ms) == [m.name];
      assert m.name in Names(ms);
    case MoreMembers(m, rest) =>
      DocKeys(rest);
      assert m.name in Names(ms);
      forall k | k in DocOf(ms)
        ensures exists n :: n in Names(ms) && IsBody(n) && Decoded(n) == k
      {
        if k in DocOf(rest) {
          var n :| n in Names(rest) && IsBody(n) && Decoded(n) == k;
          assert n in Names(ms);
        } else {
          assert Decoded(m.name) == k;
        }
      }
  }

  /** A name with an escape than which none is longer. */
  lemma {:induction false} LongestEscaped(names: seq<string>, n: string) returns (k: string)
    requires n in names && HasEscape(n)
    ensures k in names && HasEscape(k)
    ensures forall x :: x in names && HasEscape(x) ==> |x| <= |k|
  {
    hide HasEscape;
    if x :| x in names[1..] && HasEscape(x) {
      k := LongestEscaped(names[1..], x);
      if HasEscape(names[0]) && |names[0]| > |k| {
        k := names[0];
      }
    } else {
      k := names[0];
    }
  }

  ghost predicate AllFound(ms: Members)
    requires MembersOk(ms)
  {
    forall k :: k in Names(ms) && k != PROVENANCE ==> k in DocOf(ms)
  }

  /** The printer looks names up as they are spelled in the file.  It finds them
      all exactly when no top-level name is spelled with an escape. */
  lemma FoundIffEscapeFree(ms: Members)
    requires MembersOk(ms)
    ensures AllFound(ms) <==> EscapeFree(ms)
  {
    hide IsBody, Decoded, HasEscape, DocOf, Names, MembersOk;
    DocKeys(ms);
    if EscapeFree(ms) {
      forall k | k in Names(ms)
        ensures k in DocOf(ms)
      {
        PlainIsDecoded(k);
      }
    } else {
      var n :| n in Names(ms) && HasEscape(n);
      var k := LongestEscaped(Names(ms), n);
      if k in DocOf(ms) {
        var m :| m in Names(ms) && IsBody(m) && Decoded(m) == k;
        DecodedShrinks(m);
        assert false;
      }
      NoEscapeInProvenance();
    }
  }

  function Field(name: string, number: string): Member {
    Member("", name, "", "", Atom(number), "")
  }

  lemma FieldOk(name: string, number: string)
    requires IsBody(name) && (number == "1" || number == "2")
    ensures MemberOk(Field(name, number))
  {
    var n: string := "";
    assert number == n + number + n + n && IsDigits(number) && IsFraction(n) && IsExponent(n);
  }

  /** What happens to such a name: in the object whose one name is `a`, spelled as
      a hexadecimal escape, the value is looked up in vain and printed as nothing. */
  lemma EscapedNameLost(prov: string)
    ensures var ms := OneMember(Field("\\u0061", "1"));
      && MembersOk(ms) && DocOf(ms) == map["a" := Atom("1")]
      && ValueFor(Names(ms)[0], Texts(DocOf(ms)), prov) == ""
  {
    var raw := "\\u0061";
    AsciiEscape();
    FieldOk(raw, "1");
  }

  lemma AsciiEscape()
    ensures IsBody("\\u0061") && Decoded("\\u0061") == "a" && "\\u0061" != "a"
  {
    var raw := "\\u0061";
    assert raw[6..] == "";
    assert CodeUnit(raw) == 0x61;
  }

  /** Or the value is taken from another name: beside a name that stands for a
      backslash and an n, the name of the line feed gets that name's value. */
  lemma EscapedNameMistaken(prov: string)
    ensures var ms := MoreMembers(Field("\\\\n", "1"), OneMember(Field("\\n", "2")));
      && MembersOk(ms) && DocOf(ms) == map["\\n" := Atom("1"), "\n" := Atom("2")]
      && ValueFor(Names(ms)[1], Texts(DocOf(ms)), prov) == "1"
  {
    TwoEscapes();
    FieldOk("\\\\n", "1");
    FieldOk("\\n", "2");
    var rest := OneMember(Field("\\n", "2"));
    assert DocOf(rest) == map["\n" := Atom("2")];
  }

  lemma TwoEscapes()
    ensures IsBody("\\\\n") && Decoded("\\\\n") == "\\n"
    ensures IsBody("\\n") && Decoded("\\n") == "\n"
  {
    assert "\\\\n"[2..] == "n" && "n"[1..] == "" && "\\n"[2..] == "";
  }

  lemma NoEscapeInProvenance()
    ensures !HasEscape(PROVENANCE) && Marshal(PROVENANCE) == PROVENANCE && IsBody(PROVENANCE)
  {
    hide Marshal, EscapeChar, IsBody, Decoded;
    PlainStays(PROVENANCE);
    MarshalReadsBack(PROVENANCE);
  }

  lemma {:induction false} PlainStays(name: string)
    requires forall i :: 0 <= i < |name| ==> !Guarded(name[i]) && name[i] != '"' && name[i] != '\\'
    ensures Marshal(name) == name
  {
    if name != [] {
      PlainStays(name[1..]);
      assert name == [name[0]] + name[1..];
    }
  }

  // ----- the printed file as a document

  /** The members of a printed file. */
  function MembersOf(names: seq<string>, d: map<string, Value>): Members
    requires names != [] && forall k :: k in names ==> k in d
  {
    var k := names[0];
    if |names| == 1 then OneMember(Member("\n  ", Marshal(k), "", " ", d[k], "\n"))
    else MoreMembers(Member("\n  ", Marshal(k), "", " ", d[k], ""), MembersOf(names[1..], d))
  }

  ghost predicate DocOk(d: map<string, Value>) {
    forall k :: k in d ==> ValueOk(d[k])
  }

  lemma {:induction false} MembersOfOk(names: seq<string>, d: map<string, Value>)
    requires names != [] && (forall k :: k in names ==> k in d) && DocOk(d)
    ensures MembersOk(MembersOf(names, d))
    ensures |Names(MembersOf(names, d))| == |names|
    ensures forall i :: 0 <= i < |names| ==> Names(MembersOf(names, d))[i] == Marshal(names[i])
  {
    hide ValueOk, Marshal, IsBody;
    MarshalReadsBack(names[0]);
    if |names| > 1 {
      MembersOfOk(names[1..], d);
    }
  }

  /** Reading the printed members gives back the document they were printed from. */
  lemma {:induction false} PrintedDoc(names: seq<string>, d: map<string, Value>)
    requires names != [] && (forall k :: k in names ==> k in d) && DocOk(d)
    requires forall i, j :: 0 <= i < j < |names| ==> names[i] != names[j]
    ensures MembersOk(MembersOf(names, d))
    ensures DocOf(MembersOf(names, d)) == Chosen(names, d)
  {
    hide ValueOk, Marshal, IsBody, Decoded, DocOk, MembersOk, DocOf, MembersOf;
    MembersOfOk(names, d);
    if |names| > 1 {
      PrintedDoc(names[1..], d);
    }
    PrintedDocStep(names, d);
    if |names| > 1 {
      assert Chosen(names, d) == map[names[0] := d[names[0]]] + Chosen(names[1..], d);
    } else {
      assert Chosen(names, d) == map[names[0] := d[names[0]]];
    }
  }

  function Chosen(names: seq<string>, d: map<string, Value>): map<string, Value>
    requires forall k :: k in names ==> k in d
  {
    map k | k in names :: d[k]
  }

  lemma PrintedDocStep(names: seq<string>, d: map<string, Value>)
    requires names != [] && (forall k :: k in names ==> k in d) && DocOk(d)
    requires MembersOk(MembersOf(names, d)) && (|names| > 1 ==> MembersOk(MembersOf(names[1..], d)))
    ensures var head := map[names[0] := d[names[0]]];
            DocOf(MembersOf(names, d)) == if |names| == 1 then head else head + DocOf(MembersOf(names[1..], d))
  {
    hide MembersOk, IsBody, Decoded, Marshal;
    MarshalReadsBack(names[0]);
  }

  /** The lines printed are the text of those members. */
  lemma {:induction false} LinesAreMembers(names: seq<string>, doc: map<string, string>, d: map<string, Value>, prov: string)
    requires names != [] && forall k :: k in names ==> k in d && ValueFor(k, doc, prov) == ValueText(d[k])
    ensures "\n" + Lines(names, doc, prov) == MembersText(MembersOf(names, d))
  {
    hide Marshal, ValueFor, ValueText;
    var k := names[0];
    if |names| > 1 {
      LinesAreMembers(names[1..], doc, d, prov);
      InnerLine(Marshal(k), ValueText(d[k]), Lines(names[1..], doc, prov), MembersText(MembersOf(names[1..], d)));
    } else {
      LastLine(Marshal(k), ValueText(d[k]));
    }
  }

  lemma InnerLine(name: string, value: string, lines: string, members: string)
    requires "\n" + lines == members
    ensures "\n" + (("  \"" + (name + ("\": " + value))) + (",\n" + lines))
         == ("\n  " + ("\"" + (name + ("\"" + ("" + (":" + (" " + (value + "")))))))) + ("," + members)
  {
    assert ",\n" + lines == "," + members;
    assert value + "" == value;
    assert "\"" + ("" + (":" + (" " + value))) == "\": " + value;
    assert "\n  " + ("\"" + (name + ("\": " + value))) == "\n" + ("  \"" + (name + ("\": " + value)));
  }

  lemma LastLine(name: string, value: string)
    ensures "\n" + (("  \"" + (name + ("\": " + value))) + "\n")
         == "\n  " + ("\"" + (name + ("\"" + ("" + (":" + (" " + (value + "\n")))))))
  {
    assert "\"" + ("" + (":" + (" " + (value + "\n")))) == ("\": " + value) + "\n";
    assert name + (("\": " + value) + "\n") == (name + ("\": " + value)) + "\n";
    assert "\n  " + ("\"" + ((name + ("\": " + value)) + "\n")) == "\n" + (("  \"" + (name + ("\": " + value))) + "\n");
  }

  lemma PrintedIsObject(names: seq<string>, doc: map<string, string>, d: map<string, Value>, prov: string)
    requires names != [] && forall k :: k in names ==> k in d && ValueFor(k, doc, prov) == ValueText(d[k])
    ensures Printed(names, doc, prov) == ValueText(Object(MembersOf(names, d))) + "\n"
  {
    hide Lines, MembersText, MembersOf, ValueFor;
    LinesAreMembers(names, doc, d, prov);
    var l := Lines(names, doc, prov);
    assert "{\n" + (l + "}\n") == ("{" + (("\n" + l) + "}")) + "\n";
  }

  // ----- a whole run

  function SourceText(before: string, ms: Members, after: string): string {
    before + (ValueText(Object(ms)) + after)
  }

  ghost predicate SourceOk(before: string, ms: Members, after: string) {
    IsSpace(before) && MembersOk(ms) && IsSpace(after)
  }

  /** The members of the file after a run. */
  function Refreshed(ms: Members, prov: Value): Members
    requires MembersOk(ms) && AllFound(ms)
  {
    RefreshedNames(ms, prov);
    MembersOf(Ordered(Names(ms)), DocOf(ms)[PROVENANCE := prov])
  }

  lemma RefreshedNames(ms: Members, prov: Value)
    requires MembersOk(ms) && AllFound(ms)
    ensures forall k :: k in Ordered(Names(ms)) ==> k in DocOf(ms)[PROVENANCE := prov]
  {
    hide Ordered, Names, DocOf, MembersOk, InOrder;
    OrderedIs(Names(ms));
  }

  lemma {:induction false} DocValuesOk(ms: Members)
    requires MembersOk(ms)
    ensures DocOk(DocOf(ms))
  {
    hide Decoded, IsBody, ValueOk;
    if ms.MoreMembers? {
      DocValuesOk(ms.rest);
      DocOkStep(ms);
    }
  }

  lemma DocOkStep(ms: Members)
    requires MembersOk(ms) && ms.MoreMembers? && DocOk(DocOf(ms.rest))
    ensures DocOk(DocOf(ms))
  {
    hide Decoded, IsBody;
    assert MemberOk(ms.m);
  }

  /** A file whose top-level names carry no escape is rewritten into an object with
      `_provenance` first and every other name once, in source order.  As a document
      nothing changes but `_provenance`, and a further run finds it current. */
  lemma InjectKeepsDocument(before: string, ms: Members, after: string, prov: Value)
    requires SourceOk(before, ms, after) && ValueOk(prov) && EscapeFree(ms)
    ensures AllFound(ms)
    ensures var ms' := Refreshed(ms, prov);
            && Printed(Ordered(Scan(SourceText(before, ms, after), START).keys), Texts(DocOf(ms)), ValueText(prov))
               == SourceText("", ms', "\n")
            && SourceOk("", ms', "\n")
            && DocOf(ms') == DocOf(ms)[PROVENANCE := prov]
            && Current(Texts(DocOf(ms')), ValueText(prov))
    ensures forall i :: 0 <= i < |Ordered(Names(ms))| ==>
              i < |Names(Refreshed(ms, prov))| && Names(Refreshed(ms, prov))[i] == Marshal(Ordered(Names(ms))[i])
  {
    hide Scan, Ordered, Names, DocOf, MembersOk, MembersOf, EscapeFree, ValueOk, Marshal, Printed, InOrder, ValueText;
    FoundIffEscapeFree(ms);
    var d := DocOf(ms)[PROVENANCE := prov];
    var names := Ordered(Names(ms));
    ScannerFindsNames(before, ms, after);
    OrderedIs(Names(ms));
    NonEmpty(Names(ms));
    RefreshedNames(ms, prov);
    DocValuesOk(ms);
    TextsMatch(names, DocOf(ms), prov);
    PrintedIsObject(names, Texts(DocOf(ms)), d, ValueText(prov));
    PrintedDoc(names, d);
    MembersOfOk(names, d);
    NamesCoverDoc(ms, prov);
    NothingBefore(ValueText(Object(Refreshed(ms, prov))) + "\n");
    assert IsSpace("\n") && IsSpace("");
  }

  /** After a run the file is an object whose document is the old one with the
      given provenance in place of whatever `_provenance` said before. */
  lemma RunSetsProvenance(before: string, ms: Members, after: string, prov: Value)
    requires SourceOk(before, ms, after) && ValueOk(prov) && EscapeFree(ms)
    ensures exists b, ms', a ::
      && SourceOk(b, ms', a)
      && Injected(SourceText(before, ms, after), Texts(DocOf(ms)), ValueText(prov)) == SourceText(b, ms', a)
      && Texts(DocOf(ms')) == Texts(DocOf(ms))["_provenance" := ValueText(prov)]
  {
    hide Scan, Ordered, DocOf, MembersOk, EscapeFree, ValueOk, ValueText, Printed, Refreshed;
    var doc := Texts(DocOf(ms));
    if Current(doc, ValueText(prov)) {
      assert doc["_provenance" := ValueText(prov)] == doc;
    } else {
      InjectKeepsDocument(before, ms, after, prov);
      var ms' := Refreshed(ms, prov);
      assert Texts(DocOf(ms)[PROVENANCE := prov]) == doc["_provenance" := ValueText(prov)];
      assert SourceOk("", ms', "\n");
    }
  }

  lemma NothingBefore(s: string)
    ensures "" + s == s
  {
  }

  lemma TextsMatch(names: seq<string>, d: map<string, Value>, prov: Value)
    requires forall k :: k in names ==> k in d[PROVENANCE := prov]
    ensures forall k :: k in names ==> ValueFor(k, Texts(d), ValueText(prov)) == ValueText(d[PROVENANCE := prov][k])
  {
    hide ValueText;
  }

  lemma NamesCoverDoc(ms: Members, prov: Value)
    requires MembersOk(ms) && EscapeFree(ms)
    requires forall k :: k in Ordered(Names(ms)) ==> k in DocOf(ms)[PROVENANCE := prov]
    ensures Chosen(Ordered(Names(ms)), DocOf(ms)[PROVENANCE := prov]) == DocOf(ms)[PROVENANCE := prov]
  {
    hide MembersOk, DocOf, Names, Ordered, IsBody, Decoded, HasEscape, InOrder;
    DocKeys(ms);
    OrderedIs(Names(ms));
    forall k | k in DocOf(ms)
      ensures k in Ordered(Names(ms))
    {
      var n :| n in Names(ms) && IsBody(n) && Decoded(n) == k;
      PlainIsDecoded(n);
    }
  }

  /** An object without members gets its first one. */
  lemma InjectIntoEmptyObject(before: string, ws: string, after: string, prov: Value)
    requires IsSpace(before) && IsSpace(ws) && IsSpace(after) && ValueOk(prov)
    ensures var src := before + (ValueText(EmptyObject(ws)) + after);
            var ms := OneMember(Member("\n  ", PROVENANCE, "", " ", prov, "\n"));
            && Printed(Ordered(Scan(src, START).keys), map[], ValueText(prov)) == SourceText("", ms, "\n")
            && SourceOk("", ms, "\n")
  {
    hide Scan, Printed, ValueText, ValueOk, IsBody, Decoded, Marshal;
    ScannerFindsNothing(before, ws, after);
    var d := map[PROVENANCE := prov];
    NoEscapeInProvenance();
    PrintedIsObject([PROVENANCE], map[], d, ValueText(prov));
    var ms := OneMember(Member("\n  ", PROVENANCE, "", " ", prov, "\n"));
    NothingBefore(ValueText(Object(ms)) + "\n");
    assert Ordered([]) == [PROVENANCE];
    assert MembersOf([PROVENANCE], d) == ms;
    assert MemberOk(ms.m) by {
      assert IsSpace("\n  ") && IsSpace("") && IsSpace(" ") && IsSpace("\n");
    }
  }

  predicate ScriptChar(c: char) {
    c == '<' || c == '>' || c == '&' || c == '\U{2028}' || c == '\U{2029}'
  }

  lemma {:induction false} PlainBodyChars(s: string)
    requires IsBody(s) && !HasEscape(s)
    ensures forall i :: 0 <= i < |s| ==> s[i] as int >= 0x20 && s[i] != '"' && s[i] != '\\'
  {
    if s != [] {
      PlainBodyChars(s[1..]);
      assert forall i :: 1 <= i < |s| ==> s[i] == s[1..][i - 1];
    }
  }

  ghost predicate ScriptFree(ms: Members) {
    forall k, i :: k in Names(ms) && 0 <= i < |k| ==> !ScriptChar(k[i])
  }

  /** A later run with another provenance finds every name of the rewritten file
      exactly when no name of the first file holds a character the JSON library
      writes as an escape. */
  lemma SecondRefreshFindsAll(ms: Members, prov: Value)
    requires MembersOk(ms) && ValueOk(prov) && EscapeFree(ms)
    ensures AllFound(ms) && MembersOk(Refreshed(ms, prov))
    ensures AllFound(Refreshed(ms, prov)) <==> ScriptFree(ms)
  {
    hide Ordered, Names, DocOf, MembersOk, MembersOf, ValueOk, Marshal, InOrder, HasEscape, Guarded, IsBody, ScriptChar;
    FoundIffEscapeFree(ms);
    var d := DocOf(ms)[PROVENANCE := prov];
    var names := Ordered(Names(ms));
    OrderedIs(Names(ms));
    NonEmpty(Names(ms));
    RefreshedNames(ms, prov);
    DocValuesOk(ms);
    MembersOfOk(names, d);
    var ms' := Refreshed(ms, prov);
    FoundIffEscapeFree(ms');
    NamesAreBodies(ms);
    NoEscapeInProvenance();
    forall k | k in Names(ms)
      ensures HasEscape(Marshal(k)) <==> exists i :: 0 <= i < |k| && ScriptChar(k[i])
    {
      PlainNameMarshal(k);
    }
    if EscapeFree(ms') {
      forall k | k in Names(ms)
        ensures !HasEscape(Marshal(k))
      {
        var i :| 0 <= i < |names| && names[i] == k;
        assert Names(ms')[i] == Marshal(k);
      }
    } else {
      var n :| n in Names(ms') && HasEscape(n);
      var i :| 0 <= i < |names| && Names(ms')[i] == n;
      assert n == Marshal(names[i]) && names[i] in names;
    }
  }

  lemma PlainNameMarshal(k: string)
    requires IsBody(k) && !HasEscape(k)
    ensures HasEscape(Marshal(k)) <==> exists i :: 0 <= i < |k| && ScriptChar(k[i])
  {
    hide IsBody, HasEscape, Marshal;
    PlainBodyChars(k);
    MarshalPlainIff(k);
  }
}
