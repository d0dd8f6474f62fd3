/** What a template match sees of a client's path: net/http decodes the path of a
    request and keeps the text only when the decoded path would be written
    otherwise; MatchPath of internal/restxml/router.go picks one of the two. */
module RequestPaths {
  import opened Hex
  import opened Options
  import opened UriText
  import opened UriTemplate
  import opened RestRouter

  // ----- the request's two paths

  /** What url.URL leaves as it is when it writes a decoded path. */
  predicate Kept(c: char) {
    Unreserved(c) || c == '$' || c == '&' || c == '+' || c == ',' || c == '/' || c == ':' || c == ';' || c == '=' || c == '@'
  }

  function PathByte(c: char): string {
    if Kept(c) then [c] else EncodeByte(c, true)
  }

  function PathText(s: string): string {
    if s == [] then [] else PathByte(s[0]) + PathText(s[1..])
  }

  /** URL.RawPath of a path sent as `sent`: empty when the default text is that. */
  function RawPath(sent: string): string {
    match Unescape(sent)
    case None => ""
    case Some(path) => if PathText(path) == sent then "" else sent
  }

  /** Blanks end the request target; net/url refuses control characters. */
  predicate Sendable(c: char) {
    c as int > 0x20 && c as int != 0x7f
  }

  /** The two classes of characters, spelled out. */
  lemma CharacterClasses(c: char)
    ensures Kept(c) <==> 'a' <= c <= 'z' || 'A' <= c <= 'Z' || '0' <= c <= '9' || c in "-._~$&+,/:;=@"
    ensures Sendable(c) <==> ' ' < c && c != '\U{7f}'
  {
    var others := "-._~$&+,/:;=@";
    assert c in others <==> exists i :: 0 <= i < |others| && others[i] == c;
  }

  /** The request a client makes by sending a text as its target: the path ends at
      the first question mark, and one that cannot be decoded makes no request. */
  ghost predicate Sends(req: Request, target: string) {
    && (forall i :: 0 <= i < |target| ==> Sendable(target[i]))
    && var path := UpTo(target, '?');
    Unescape(path) == Some(req.path) && req.rawPath == RawPath(path)
  }

  // ----- texts that are their own default

  ghost predicate Canonical(e: string) {
    Unescape(e).Some? && PathText(Unescape(e).value) == e
  }

  /** How long the first character's spelling is, and the character. */
  function HeadSize(e: string): nat {
    if e != [] && e[0] == '%' then 3 else 1
  }

  lemma HeadDecodes(e: string)
    requires e != [] && Unescape(e).Some?
    ensures HeadSize(e) <= |e| && Unescape(e[HeadSize(e)..]).Some? && Unescape(e).value != []
    ensures Unescape(e).value[1..] == Unescape(e[HeadSize(e)..]).value
    ensures e[0] != '%' ==> Unescape(e).value[0] == e[0]
    ensures e[0] == '%' ==> IsHex(e[1]) && IsHex(e[2])
  {
    hide HexValue;
  }

  lemma PathByteShape(c: char)
    ensures (PathByte(c) == [c] && c != '%') || (|PathByte(c)| == 3 && PathByte(c)[0] == '%' && c != '/')
  {
  }

  /** The head of such a text is the default spelling of its character, and what
      follows is such a text again. */
  lemma CanonicalHead(e: string, d: string, n: nat)
    requires d != [] && n <= |e| && n == HeadSize(e)
    ensures PathText(d) == e <==> PathByte(d[0]) == e[..n] && PathText(d[1..]) == e[n..]
    ensures PathByte(d[0]) == e[..n] && n == 3 ==> d[0] != '/'
  {
    hide PathByte;
    PathByteShape(d[0]);
    assert PathText(d) == PathByte(d[0]) + PathText(d[1..]);
    assert e == e[..n] + e[n..];
    if PathText(d) == e {
      assert |PathByte(d[0])| == n;
      assert e[..n] == PathByte(d[0]) && e[n..] == PathText(d[1..]);
    }
  }

  /** So with the decoded text. */
  lemma CanonicalParts(e: string)
    requires e != [] && Unescape(e).Some?
    ensures HeadSize(e) <= |e| && Unescape(e).value != []
    ensures Canonical(e) <==>
      PathByte(Unescape(e).value[0]) == e[..HeadSize(e)] && Canonical(e[HeadSize(e)..])
    ensures Canonical(e) && e[0] == '%' ==> Unescape(e).value[0] != '/'
  {
    hide Unescape, PathByte, PathText;
    HeadDecodes(e);
    CanonicalHead(e, Unescape(e).value, HeadSize(e));
  }

  lemma {:induction false} CanonicalSlashes(e: string)
    requires Canonical(e) && '/' !in e
    ensures '/' !in Unescape(e).value
    decreases |e|
  {
    hide Unescape, PathText, PathByte, Canonical;
    CanonicalDecodes(e);
    if e == [] {
      EmptyDecodes();
    } else {
      var n := HeadSize(e);
      CanonicalParts(e);
      HeadDecodes(e);
      CanonicalSlashes(e[n..]);
      var d := Unescape(e).value;
      assert d == [d[0]] + d[1..];
    }
  }

  lemma EmptyDecodes()
    ensures Unescape([]) == Some([]) && Canonical([])
  {
  }

  lemma CanonicalDecodes(e: string)
    requires Canonical(e)
    ensures Unescape(e).Some?
  {
  }

  /** Both sides of a slash in such a text are such texts. */
  lemma {:induction false} CanonicalSides(a: string, b: string)
    requires Canonical(a + "/" + b)
    ensures Canonical(a) && Canonical(b)
    decreases |a|
  {
    hide Unescape, PathText, PathByte, Canonical;
    var e := a + "/" + b;
    CanonicalDecodes(e);
    CanonicalParts(e);
    HeadDecodes(e);
    UnescapeAcrossSlash(a, b);
    if a == [] {
      assert e[0] == '/' && e[1..] == b;
      EmptyDecodes();
    } else {
      var n := HeadSize(a);
      assert e[0] == a[0];
      HeadInFront(a, b);
      HeadDecodes(a);
      assert e[n..] == a[n..] + "/" + b && e[..n] == a[..n];
      CanonicalSides(a[n..], b);
      CanonicalParts(a);
      assert Unescape(e).value[0] == Unescape(a).value[0];
    }
  }

  /** No spelling reaches across the slash. */
  lemma HeadInFront(a: string, b: string)
    requires a != [] && Unescape(a + "/" + b).Some?
    ensures HeadSize(a) <= |a| && Unescape(a).Some?
  {
    UnescapeAcrossSlash(a, b);
    HeadDecodes(a);
  }

  // ----- what the router sees of an expansion

  lemma SlashFirst(s: string)
    ensures [] + "/" + s == "/" + s
  {
  }

  lemma {:induction false} PiecesCanonical(pieces: seq<string>)
    requires Canonical(Join(pieces, '/'))
    ensures forall i :: 0 <= i < |pieces| ==> Canonical(pieces[i])
  {
    hide Canonical;
    if |pieces| > 1 {
      CanonicalSides(pieces[0], Join(pieces[1..], '/'));
      PiecesCanonical(pieces[1..]);
    }
  }

  /** The value of a piece. */
  ghost predicate Decodes(pieces: seq<string>, values: seq<string>) {
    |values| == |pieces| && forall i :: 0 <= i < |pieces| ==> Unescape(pieces[i]) == Some(values[i])
  }

  /** Neither a literal nor a label's value holds a percent sign. */
  ghost predicate PercentFree(ss: seq<Segment>, values: seq<string>)
    requires |values| == |ss|
  {
    forall i :: 0 <= i < |ss| ==> '%' !in (if ss[i].Literal? then ss[i].text else values[i])
  }

  lemma SpelledOnce(ss: seq<Segment>, a: seq<string>, b: seq<string>, ps: seq<string>)
    requires Spelled(ss, a, ps) && Spelled(ss, b, ps)
    ensures a == b
  {
    hide Split;
    if ss != [] {
      var n := |ss| - 1;
      assert a == a[..n] + [a[n]] && b == b[..n] + [b[n]];
      JoinOfSplit(a[n], '/');
      JoinOfSplit(b[n], '/');
      assert a[..n] == ps[..n] == b[..n];
      if ps == a[..n] + Split(a[n], '/') && ps == b[..n] + Split(b[n], '/') {
        assert Split(a[n], '/') == ps[n..] == Split(b[n], '/');
      }
    }
  }

  /** Values without slashes, the greedy one apart, spell themselves in the path
      they make, but for a lone label's empty one. */
  lemma ValuesSpelled(ss: seq<Segment>, values: seq<string>)
    requires TemplateOk(ss) && |values| == |ss| && (forall i :: 0 <= i < |ss| && !ss[i].Greedy? ==> '/' !in values[i])
    requires forall i :: 0 <= i < |ss| && ss[i].Literal? && values[i] == [] ==> ss[i].text == []
    requires !(|ss| == 1 && ss[0].Label? && values[0] == [])
    ensures Spelled(ss, values, SplitPath(Path(values)))
  {
    hide Split, SplitPath, Path, Plain, IsLabel;
    if ss == [] {
      NoPieces();
    } else {
      var n := |ss| - 1;
      var front, last := values[..n], values[n];
      assert values == front + [last];
      PathSplits(front, last);
      if front == [] && last == [] {
        assert ss == [ss[0]];
      }
    }
  }

  /** In the path that is sent, the literals' values are kept from the slashes. */
  lemma ValuesSlashFree(ss: seq<Segment>, pieces: seq<string>, values: seq<string>)
    requires TemplateOk(ss) && Expands(ss, pieces) && Decodes(pieces, values) && Canonical(Join(pieces, '/'))
    ensures forall i :: 0 <= i < |ss| && !ss[i].Greedy? ==> '/' !in values[i]
    ensures forall i :: 0 <= i < |ss| && ss[i].Literal? && values[i] == [] ==> ss[i].text == []
  {
    hide Canonical, Unescape, Join;
    PiecesCanonical(pieces);
    forall i | 0 <= i < |ss| && !ss[i].Greedy?
      ensures '/' !in values[i] && (values[i] == [] ==> pieces[i] == [])
    {
      PieceHasNoSlash(ss[i], pieces[i]);
      CanonicalSlashes(pieces[i]);
      NonEmptyDecodes(pieces[i]);
    }
  }

  lemma NonEmptyDecodes(e: string)
    ensures Unescape(e) == Some([]) ==> e == []
  {
    hide Unescape;
    if e != [] && Unescape(e).Some? {
      HeadDecodes(e);
    }
  }

  /** The decoded path matches with the client's values exactly when none of them
      would be decoded once more into something else. */
  lemma DecodedPathMatches(ss: seq<Segment>, pieces: seq<string>, values: seq<string>)
    requires TemplateOk(ss) && Expands(ss, pieces) && Decodes(pieces, values) && Canonical(Join(pieces, '/'))
    requires !(|ss| == 1 && ss[0].Label? && values[0] == [])
    ensures var r := Matched(Path(values), Template(ss));
      (r.Some? && Binds(ss, pieces, r.value)) <==> PercentFree(ss, values)
  {
    hide Canonical, Unescape, Join, Matched, Path, Template, Spelled, SplitPath, TemplateOk;
    ValuesSlashFree(ss, pieces, values);
    ValuesSpelled(ss, values);
    var r := Matched(Path(values), Template(ss));
    if r.Some? && Binds(ss, pieces, r.value) {
      MatchIff(ss, Path(values), r.value);
      var other :| Expands(ss, other) && Spelled(ss, other, SplitPath(Path(values))) && Binds(ss, other, r.value);
      SpelledOnce(ss, values, other, SplitPath(Path(values)));
      forall i | 0 <= i < |ss|
        ensures '%' !in (if ss[i].Literal? then ss[i].text else values[i])
      {
        assert PieceOk(ss[i], values[i]) && PieceOk(ss[i], pieces[i]);
        UnescapeShrinks(values[i]);
      }
    }
    if PercentFree(ss, values) {
      PercentFreeExpands(ss, pieces, values);
      PartsMatch(ss, values);
    }
  }

  lemma PercentFreeExpands(ss: seq<Segment>, pieces: seq<string>, values: seq<string>)
    requires Expands(ss, pieces) && Decodes(pieces, values) && PercentFree(ss, values)
    requires forall i :: 0 <= i < |ss| && !ss[i].Greedy? ==> '/' !in values[i]
    ensures Expands(ss, values)
    ensures forall labels :: Binds(ss, values, labels) ==> Binds(ss, pieces, labels)
  {
    hide Unescape;
    forall i | 0 <= i < |ss|
      ensures PieceOk(ss[i], values[i]) && (!ss[i].Literal? ==> Unescape(values[i]) == Unescape(pieces[i]))
    {
      assert PieceOk(ss[i], pieces[i]);
      UnescapeShrinks(values[i]);
      UnescapeShrinks(pieces[i]);
    }
  }

  lemma PartsMatch(ss: seq<Segment>, pieces: seq<string>)
    requires TemplateOk(ss) && Expands(ss, pieces) && Spelled(ss, pieces, SplitPath(Path(pieces)))
    ensures var r := Matched(Path(pieces), Template(ss)); r.Some? && Binds(ss, pieces, r.value)
  {
    hide Unescape, Split, SplitPath, MatchParts, Template, Path, PieceOk, Spelled, UpTo, SegmentsOk;
    TemplateSplits(ss, []);
    SpelledMatches(ss, pieces, SplitPath(Path(pieces)));
  }

  /** A path cut at a raw question mark has too little left for the client's values,
      whether it is matched as it was sent or decoded. */
  lemma CutPathMisses(ss: seq<Segment>, pieces: seq<string>, values: seq<string>, m: string)
    requires TemplateOk(ss) && Expands(ss, pieces) && Decodes(pieces, values) && '?' in Path(pieces)
    requires m == UpTo(Path(pieces), '?') || Some(m) == Unescape(UpTo(Path(pieces), '?'))
    ensures var r := Matched(m, Template(ss)); !(r.Some? && Binds(ss, pieces, r.value))
  {
    hide Unescape, Join, Matched, Path, Template, Spelled, SplitPath, TemplateOk, PieceOk, UpTo, Decodes;
    var r := Matched(m, Template(ss));
    if r.Some? && Binds(ss, pieces, r.value) {
      MatchIff(ss, m, r.value);
      var other :| Expands(ss, other) && Spelled(ss, other, SplitPath(m)) && Binds(ss, other, r.value);
      SameValues(ss, pieces, values, other, r.value);
      CutTooShort(ss, pieces, values, other, m);
      assert false;
    }
  }

  /** Pieces that bind the same labels have the same values. */
  lemma SameValues(ss: seq<Segment>, pieces: seq<string>, values: seq<string>, other: seq<string>, labels: Labels)
    requires Expands(ss, pieces) && Expands(ss, other) && Decodes(pieces, values)
    requires Binds(ss, pieces, labels) && Binds(ss, other, labels)
    ensures Decodes(other, values)
  {
    hide Unescape;
    forall i | 0 <= i < |ss|
      ensures Unescape(other[i]) == Some(values[i])
    {
      assert PieceOk(ss[i], pieces[i]) && PieceOk(ss[i], other[i]);
    }
  }

  lemma CutTooShort(ss: seq<Segment>, pieces: seq<string>, values: seq<string>, other: seq<string>, m: string)
    requires |pieces| == |ss| && Decodes(pieces, values) && Decodes(other, values) && '?' in Path(pieces)
    requires m == UpTo(Path(pieces), '?') || Some(m) == Unescape(UpTo(Path(pieces), '?'))
    ensures !Spelled(ss, other, SplitPath(m))
  {
    hide Unescape, Join, Path, Spelled, SplitPath, UpTo, Decodes;
    var t := Path(pieces);
    var c := UpTo(t, '?');
    PathDecoded(pieces, values);
    PathDecoded(other, values);
    CutSize(t);
    UnescapeShrinks(m);
    CutStarts(pieces, m);
    SlashAfter(m);
    SpelledText(ss, other, m);
    if Path(other) == m + "/" && other != [] && other[|other| - 1] == [] {
      EmptyLast(pieces, values, other);
    }
  }

  /** Decoding the whole gives more than decoding the part before the mark, by two
      at least unless nothing follows the mark. */
  lemma CutSize(t: string)
    requires '?' in t && Unescape(t).Some?
    ensures var c := UpTo(t, '?');
      && Unescape(c).Some? && |Unescape(c).value| < |Unescape(t).value|
      && (|Unescape(c).value| + 1 < |Unescape(t).value| || t[|t| - 1] == '?')
  {
    hide Unescape, UpTo;
    UpToIs(t, '?');
    var c := UpTo(t, '?');
    var rest := t[|c| + 1..];
    assert t == c + ['?'] + rest;
    UnescapeAcross(c, '?', rest);
    NonEmptyDecodes(rest);
  }

  lemma CutStarts(pieces: seq<string>, m: string)
    requires m == UpTo(Path(pieces), '?') || Some(m) == Unescape(UpTo(Path(pieces), '?'))
    ensures m != [] && m[0] == '/'
  {
    hide Join, Unescape;
    var c := UpTo(Path(pieces), '?');
    assert c != [] && c[0] == '/';
    if Unescape(c).Some? {
      HeadDecodes(c);
    }
  }

  lemma SlashAfter(m: string)
    ensures Unescape(m).Some? <==> Unescape(m + "/").Some?
    ensures Unescape(m).Some? ==> |Unescape(m + "/").value| == |Unescape(m).value| + 1
  {
    hide Unescape;
    UnescapeAcrossSlash(m, []);
    EmptyDecodes();
    assert m + "/" + [] == m + "/";
  }

  lemma PathDecoded(pieces: seq<string>, values: seq<string>)
    requires Decodes(pieces, values)
    ensures Unescape(Path(pieces)) == Some(Path(values))
  {
    hide Unescape, Join;
    AllDecode(pieces, values);
    UnescapeJoined(pieces);
    UnescapeAcrossSlash([], Join(pieces, '/'));
    EmptyDecodes();
    SlashFirst(Join(pieces, '/'));
    SlashFirst(Join(values, '/'));
  }

  lemma {:induction false} AllDecode(pieces: seq<string>, values: seq<string>)
    requires Decodes(pieces, values)
    ensures UnescapeAll(pieces) == Some(values)
  {
    hide Unescape;
    if pieces != [] {
      AllDecode(pieces[1..], values[1..]);
      assert values == [values[0]] + values[1..];
    }
  }

  /** What a path spells, put together again, is the path, or the path with the
      slash of a greedy label that was left out. */
  lemma SpelledText(ss: seq<Segment>, other: seq<string>, m: string)
    requires m != [] && m[0] == '/'
    ensures Spelled(ss, other, SplitPath(m)) ==>
      Path(other) == m || (Path(other) == m + "/" && other != [] && other[|other| - 1] == [])
  {
    hide Split, Join;
    var t := m[1..];
    JoinOfSplit(t, '/');
    assert m == "/" + t;
    if Spelled(ss, other, SplitPath(m)) && ss != [] {
      var n := |ss| - 1;
      assert other == other[..n] + [other[n]];
      if SplitPath(m) == other[..n] + Split(other[n], '/') {
        JoinAgain(other[..n], other[n]);
        assert Join(other, '/') == t;
      } else if n > 0 {
        JoinOneMore(other[..n]);
        assert Join(other[..n], '/') == t;
        assert Join(other, '/') == t + "/";
        assert "/" + (t + "/") == ("/" + t) + "/";
      } else {
        OnlyPiece(other);
        assert other[..0] == [] && t == [];
      }
    } else {
      NoneJoined();
    }
  }

  lemma NoneJoined()
    ensures Join([], '/') == []
  {
  }

  lemma OnlyPiece(other: seq<string>)
    requires |other| == 1
    ensures Join(other, '/') == other[0]
  {
  }

  lemma {:induction false} JoinAgain(front: seq<string>, last: string)
    ensures Join(front + Split(last, '/'), '/') == Join(front + [last], '/')
  {
    hide Split;
    if front == [] {
      JoinOfSplit(last, '/');
      assert [] + Split(last, '/') == Split(last, '/') && [] + [last] == [last];
    } else {
      JoinAgain(front[1..], last);
      assert (front + [last])[1..] == front[1..] + [last];
      assert (front + Split(last, '/'))[1..] == front[1..] + Split(last, '/');
    }
  }

  lemma {:induction false} JoinOneMore(front: seq<string>)
    requires front != []
    ensures Join(front + [[]], '/') == Join(front, '/') + "/"
  {
    if |front| == 1 {
      assert (front + [[]])[1..] == [[]];
    } else {
      JoinOneMore(front[1..]);
      assert (front + [[]])[1..] == front[1..] + [[]];
    }
  }

  /** With an empty last piece the path ends in its slash. */
  lemma EmptyLast(pieces: seq<string>, values: seq<string>, other: seq<string>)
    requires Decodes(pieces, values) && Decodes(other, values) && other != [] && other[|other| - 1] == []
    ensures Path(pieces)[|Path(pieces)| - 1] == '/'
  {
    hide Unescape, Join;
    var n := |pieces| - 1;
    EmptyDecodes();
    NonEmptyDecodes(pieces[n]);
    assert pieces == pieces[..n] + [[]];
    if n > 0 {
      JoinOneMore(pieces[..n]);
    } else {
      OnlyPiece(pieces);
    }
  }

  /** A client expands a template and sends the path.  The router reads back exactly
      the client's values if and only if the path holds no raw question mark, and
      the request keeps the sent text or no literal and no value holds a percent
      sign; a lone label's empty value never comes back. */
  lemma RoutedLabels(req: Request, ss: seq<Segment>, pieces: seq<string>, values: seq<string>)
    requires TemplateOk(ss) && Expands(ss, pieces) && Decodes(pieces, values) && Sends(req, Path(pieces))
    ensures var r := Matched(MatchPath(req), Template(ss));
      (r.Some? && Binds(ss, pieces, r.value)) <==>
        && '?' !in Path(pieces)
        && !(|ss| == 1 && ss[0].Label? && values[0] == [])
        && (req.rawPath != [] || PercentFree(ss, values))
  {
    hide Unescape, Join, Template, Canonical, TemplateOk, PathText, Matched, PercentFree, Path, RawPath, Binds, PieceOk, UpTo;
    UpToIs(Path(pieces), '?');
    PathDecoded(pieces, values);
    if '?' in Path(pieces) {
      RawPathIs(UpTo(Path(pieces), '?'));
      CutPathMisses(ss, pieces, values, MatchPath(req));
    } else {
      WholePathRouted(req, ss, pieces, values);
    }
  }

  lemma RawPathIs(sent: string)
    ensures RawPath(sent) == [] || RawPath(sent) == sent
  {
    hide Unescape, PathText;
  }

  lemma WholePathRouted(req: Request, ss: seq<Segment>, pieces: seq<string>, values: seq<string>)
    requires TemplateOk(ss) && Expands(ss, pieces) && Decodes(pieces, values)
    requires Unescape(Path(pieces)) == Some(req.path) && req.rawPath == RawPath(Path(pieces))
    ensures var r := Matched(MatchPath(req), Template(ss));
      (r.Some? && Binds(ss, pieces, r.value)) <==>
        !(|ss| == 1 && ss[0].Label? && values[0] == []) && (req.rawPath != [] || PercentFree(ss, values))
  {
    hide Unescape, Join, Template, Canonical, TemplateOk, PathText, Matched, PercentFree, Path, RawPath, Binds, PieceOk;
    PathDecoded(pieces, values);
    ExpansionMatches(ss, pieces);
    SentText(pieces);
    EmptyDecodes();
    if |ss| == 1 && ss[0].Label? && values[0] == [] {
      NonEmptyDecodes(pieces[0]);
      assert pieces == [pieces[0]] && values == [values[0]];
    } else if req.rawPath == [] {
      DecodedPathMatches(ss, pieces, values);
    }
  }

  lemma SentText(pieces: seq<string>)
    requires Unescape(Path(pieces)).Some?
    ensures RawPath(Path(pieces)) == [] || RawPath(Path(pieces)) == Path(pieces)
    ensures RawPath(Path(pieces)) == [] ==> Canonical(Join(pieces, '/'))
  {
    hide Unescape, Join, PathText;
    assert Path(pieces) == [] + "/" + Join(pieces, '/');
    if RawPath(Path(pieces)) == [] {
      assert Canonical(Path(pieces));
      CanonicalSides([], Join(pieces, '/'));
    }
  }

  // ----- clients that write paths as net/url does

  lemma PathByteReads(c: char, tail: string)
    requires c as int < 256
    ensures Unescape(PathByte(c) + tail) == Consed(c, Unescape(tail))
  {
    hide Unescape, EncodeByte;
    if Kept(c) {
      PlainReads(c, tail);
    } else {
      UnescapeEncoded(c, true, tail);
    }
  }

  lemma PlainReads(c: char, tail: string)
    requires c != '%'
    ensures Unescape([c] + tail) == Consed(c, Unescape(tail))
  {
    assert ([c] + tail)[1..] == tail;
  }

  lemma {:induction false} PathTextReads(s: string)
    requires IsBytes(s)
    ensures Unescape(PathText(s)) == Some(s)
  {
    hide Unescape, PathByte;
    if s == [] {
      EmptyDecodes();
    } else {
      PathTextReads(s[1..]);
      PathByteReads(s[0], PathText(s[1..]));
      assert s == [s[0]] + s[1..];
    }
  }

  /** Sent in its default text, a path is not kept beside its decoding. */
  lemma DefaultTextDropped(path: string)
    requires IsBytes(path)
    ensures RawPath(PathText(path)) == []
  {
    hide Unescape;
    PathTextReads(path);
  }

  lemma {:induction false} PathTextAppend(a: string, b: string)
    ensures PathText(a + b) == PathText(a) + PathText(b)
  {
    hide PathByte;
    if a == [] {
      assert a + b == b;
    } else {
      assert (a + b)[1..] == a[1..] + b;
      PathTextAppend(a[1..], b);
    }
  }

  function PathTexts(values: seq<string>): seq<string> {
    seq(|values|, i requires 0 <= i < |values| => PathText(values[i]))
  }

  lemma {:induction false} PathTextJoin(values: seq<string>)
    ensures PathText(Join(values, '/')) == Join(PathTexts(values), '/')
  {
    hide PathText;
    SlashKept();
    if |values| > 1 {
      PathTextJoin(values[1..]);
      assert PathTexts(values)[1..] == PathTexts(values[1..]);
      PathTextAppend(values[0] + "/", Join(values[1..], '/'));
      PathTextAppend(values[0], "/");
    }
  }

  lemma SlashKept()
    ensures PathText("/") == "/" && PathText("") == ""
  {
    assert PathText("/"[1..]) == "";
  }

  /** The path of some values in its default text. */
  lemma DefaultPath(values: seq<string>)
    ensures PathText(Path(values)) == Path(PathTexts(values))
  {
    hide PathText, Join;
    SlashKept();
    PathTextAppend("/", Join(values, '/'));
    PathTextJoin(values);
  }

  lemma {:induction false} PathTextUnmarked(s: string)
    ensures '?' !in PathText(s)
  {
    hide PathByte;
    if s != [] {
      PathTextUnmarked(s[1..]);
      PathByteUnmarked(s[0]);
    }
  }

  lemma PathByteUnmarked(c: char)
    ensures '?' !in PathByte(c)
  {
    hide HexValue;
    assert !IsHex('?');
  }

  /** A client that writes its paths so gets all its values through exactly when
      none of them, and no literal, holds a percent sign. */
  lemma DefaultPathsLosePercent(req: Request, ss: seq<Segment>, values: seq<string>)
    requires TemplateOk(ss) && Expands(ss, PathTexts(values)) && !(|ss| == 1 && ss[0].Label? && values[0] == [])
    requires IsBytes(Path(values)) && forall i :: 0 <= i < |values| ==> IsBytes(values[i])
    requires Sends(req, PathText(Path(values)))
    ensures var r := Matched(MatchPath(req), Template(ss));
      (r.Some? && Binds(ss, PathTexts(values), r.value)) <==> PercentFree(ss, values)
  {
    hide PathText, Path, Matched, Template, Binds, Unescape, TemplateOk, PercentFree, IsBytes, PieceOk, UpTo;
    DefaultPath(values);
    DefaultTextDropped(Path(values));
    PathTextUnmarked(Path(values));
    UpToIs(PathText(Path(values)), '?');
    forall i | 0 <= i < |values|
      ensures Unescape(PathTexts(values)[i]) == Some(values[i])
    {
      PathTextReads(values[i]);
    }
    RoutedLabels(req, ss, PathTexts(values), values);
  }

  /** The template "/b/{Key}". */
  const KEY_TEMPLATE := [Literal("b"), Label("Key")]

  /** A raw question mark in the key: "/b/x?y" is a request for "/b/x". */
  lemma QuestionMarkCut(req: Request)
    requires Sends(req, "/b/x?y")
    ensures Matched(MatchPath(req), Template(KEY_TEMPLATE)) != Some(map["Key" := "x?y"])
  {
    hide Matched, Template, RawPath, PathText, Expands, PercentFree, UpTo, Sends, Binds, Decodes, MatchPath, Unescape;
    var pieces := ["b", "x?y"];
    assert pieces[1..] == ["x?y"] && Path(pieces) == "/b/x?y" && "/b/x?y"[4] == '?';
    MarkedKey();
    RoutedLabels(req, KEY_TEMPLATE, pieces, pieces);
  }

  lemma MarkedKey()
    ensures var pieces := ["b", "x?y"];
      && TemplateOk(KEY_TEMPLATE) && Expands(KEY_TEMPLATE, pieces) && Decodes(pieces, pieces)
      && Binds(KEY_TEMPLATE, pieces, map["Key" := "x?y"])
  {
    hide Unescape;
    var pieces := ["b", "x?y"];
    UnescapeShrinks("b");
    UnescapeShrinks("x?y");
    assert KEY_TEMPLATE[1].name == "Key" && '%' !in "b" && '%' !in "x?y";
  }

  /** For one: the key "100%", sent as "/b/100%25", does not come back. */
  lemma PercentLost(req: Request)
    requires Sends(req, "/b/100%25")
    ensures Matched(MatchPath(req), Template(KEY_TEMPLATE)) != Some(map["Key" := "100%"])
  {
    hide Matched, Template, Unescape, RawPath, PathText, Expands, PercentFree, Sends, Binds, Decodes, MatchPath;
    var values := ["b", "100%"];
    HundredText();
    DefaultPathsLosePercent(req, KEY_TEMPLATE, values);
  }

  lemma HundredText()
    ensures var values := ["b", "100%"];
      && TemplateOk(KEY_TEMPLATE) && Expands(KEY_TEMPLATE, PathTexts(values))
      && IsBytes(Path(values)) && !PercentFree(KEY_TEMPLATE, values)
      && PathText(Path(values)) == "/b/100%25"
      && Binds(KEY_TEMPLATE, PathTexts(values), map["Key" := "100%"])
  {
    hide PathText, Unescape;
    var values := ["b", "100%"];
    OwnTexts();
    assert PathTexts(values) == ["b", "100%25"];
    PathTextReads("100%");
    DefaultPath(values);
    assert values[1..] == ["100%"] && ["b", "100%25"][1..] == ["100%25"];
    assert Path(values) == "/b/100%" && Path(PathTexts(values)) == "/b/100%25";
    assert KEY_TEMPLATE[1].name == "Key";
    assert '%' in values[1] by { assert values[1][3] == '%'; }
  }

  lemma OwnTexts()
    ensures PathText("b") == "b" && PathText("100%") == "100%25"
  {
    hide PathText;
    SlashKept();
    PathTextHead('b', "");
    PathTextHead('1', "00%");
    PathTextHead('0', "0%");
    PathTextHead('0', "%");
    PathTextHead('%', "");
    assert ['b'] + "" == "b" && ['1'] + "00%" == "100%" && ['0'] + "0%" == "00%" && ['0'] + "%" == "0%" && ['%'] + "" == "%";
    assert PathByte('%') == "%25";
  }

  lemma PathTextHead(c: char, tail: string)
    ensures PathText([c] + tail) == PathByte(c) + PathText(tail)
  {
    assert ([c] + tail)[1..] == tail;
  }
}
