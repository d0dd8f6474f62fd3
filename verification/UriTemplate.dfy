/** Smithy URI templates: MatchURI of internal/restxml/uri.go. */
module UriTemplate {
  import opened Options
  import opened UriText

  type Labels = map<string, string>

  function SplitPath(s: string): seq<string> {
    var t := if s != [] && s[0] == '/' then s[1..] else s;
    if t == [] then [] else Split(t, '/')
  }

  predicate IsLabel(seg: string) {
    seg != [] && seg[0] == '{' && seg[|seg| - 1] == '}'
  }

  lemma LabelIsWide(seg: string)
    requires IsLabel(seg)
    ensures |seg| >= 2
  {
  }

  /** The name inside the braces, and whether a '+' marks it as greedy. */
  function LabelName(seg: string): (string, bool)
    requires IsLabel(seg)
  {
    LabelIsWide(seg);
    var inner := seg[1..|seg| - 1];
    if inner != [] && inner[|inner| - 1] == '+' then (inner[..|inner| - 1], true) else (inner, false)
  }

  function MatchParts(ts: seq<string>, ps: seq<string>, labels: Labels): Option<Labels> {
    if ts == [] then
      if ps == [] then Some(labels) else None
    else if !IsLabel(ts[0]) then
      if ps != [] && ps[0] == ts[0] then MatchParts(ts[1..], ps[1..], labels) else None
    else
      var (name, greedy) := LabelName(ts[0]);
      if greedy then
        if |ts| != 1 then None
        else
          match Unescape(Join(ps, '/'))
          case None => None
          case Some(v) => Some(labels[name := v])
      else if ps == [] || Unescape(ps[0]) == None then None
      else MatchParts(ts[1..], ps[1..], labels[name := Unescape(ps[0]).value])
  }

  function Matched(path: string, template: string): Option<Labels> {
    MatchParts(SplitPath(UpTo(template, '?')), SplitPath(path), map[])
  }

  method MatchURI(path: string, template: string) returns (r: Option<Labels>)
    ensures r == Matched(path, template)
  {
    hide Unescape, Join, IsLabel;
    var labels: Labels := map[];
    var tparts := SplitPath(UpTo(template, '?'));
    var pparts := SplitPath(path);
    var ti, pi := 0, 0;
    while ti < |tparts|
      invariant 0 <= ti <= |tparts| && 0 <= pi <= |pparts|
      invariant MatchParts(tparts[ti..], pparts[pi..], labels) == Matched(path, template)
    {
      assert tparts[ti..][1..] == tparts[ti + 1..] && tparts[ti..][0] == tparts[ti];
      assert pi < |pparts| ==> pparts[pi..][1..] == pparts[pi + 1..] && pparts[pi..][0] == pparts[pi];
      var t := tparts[ti];
      if !IsLabel(t) {
        if pi >= |pparts| || pparts[pi] != t {
          return None;
        }
        ti, pi := ti + 1, pi + 1;
        continue;
      }
      var (name, greedy) := LabelName(t);
      if greedy {
        if ti + 1 != |tparts| {
          return None;
        }
        var decoded := Unescape(Join(pparts[pi..], '/'));
        if decoded == None {
          return None;
        }
        return Some(labels[name := decoded.value]);
      }
      if pi >= |pparts| {
        return None;
      }
      var decoded := Unescape(pparts[pi]);
      if decoded == None {
        return None;
      }
      labels := labels[name := decoded.value];
      ti, pi := ti + 1, pi + 1;
    }
    assert tparts[ti..] == [];
    if pi != |pparts| {
      return None;
    }
    return Some(labels);
  }

  // ----- templates and their expansions

  datatype Segment = Literal(text: string) | Label(name: string) | Greedy(name: string)

  function SegmentText(s: Segment): string {
    match s
    case Literal(t) => t
    case Label(n) => "{" + n + "}"
    case Greedy(n) => "{" + n + "+}"
  }

  function TemplateParts(ss: seq<Segment>): seq<string> {
    seq(|ss|, i requires 0 <= i < |ss| => SegmentText(ss[i]))
  }

  function Template(ss: seq<Segment>): string {
    "/" + Join(TemplateParts(ss), '/')
  }

  ghost predicate Plain(s: string) {
    '/' !in s && '?' !in s
  }

  ghost predicate SegmentOk(s: Segment) {
    match s
    case Literal(t) => Plain(t) && !IsLabel(t)
    case Label(n) => Plain(n) && (n != [] ==> n[|n| - 1] != '+')
    case Greedy(n) => Plain(n)
  }

  /** Distinct names, and a greedy label only in last place. */
  ghost predicate SegmentsOk(ss: seq<Segment>) {
    && (forall i :: 0 <= i < |ss| ==> SegmentOk(ss[i]))
    && (forall i :: 0 <= i < |ss| - 1 ==> !ss[i].Greedy?)
    && (forall i, j :: 0 <= i < j < |ss| && !ss[i].Literal? && !ss[j].Literal? ==> ss[i].name != ss[j].name)
  }

  /** A lone empty literal is the template without segments, spelled otherwise. */
  ghost predicate TemplateOk(ss: seq<Segment>) {
    SegmentsOk(ss) && ss != [Literal([])]
  }

  /** One piece of path for each segment: the literal itself, an escaped value
      without slashes, or an escaped tail. */
  ghost predicate PieceOk(s: Segment, piece: string) {
    match s
    case Literal(t) => piece == t
    case Label(_) => '/' !in piece && Unescape(piece).Some?
    case Greedy(_) => Unescape(piece).Some?
  }

  ghost predicate Expands(ss: seq<Segment>, pieces: seq<string>) {
    |pieces| == |ss| && forall i :: 0 <= i < |ss| ==> PieceOk(ss[i], pieces[i])
  }

  function Path(pieces: seq<string>): string {
    "/" + Join(pieces, '/')
  }

  /** The labels hold exactly the decoded pieces. */
  ghost predicate Binds(ss: seq<Segment>, pieces: seq<string>, labels: Labels)
    requires |pieces| == |ss|
  {
    && (forall k :: k in labels <==> exists i :: 0 <= i < |ss| && !ss[i].Literal? && ss[i].name == k)
    && (forall i :: 0 <= i < |ss| && !ss[i].Literal? ==> ss[i].name in labels && Some(labels[ss[i].name]) == Unescape(pieces[i]))
  }

  lemma SegmentReads(s: Segment)
    requires SegmentOk(s)
    ensures Plain(SegmentText(s)) && (SegmentText(s) == [] <==> s == Literal([]))
    ensures s.Literal? <==> !IsLabel(SegmentText(s))
    ensures s.Literal? ==> SegmentText(s) == s.text
    ensures !s.Literal? ==> LabelName(SegmentText(s)) == (s.name, s.Greedy?)
  {
    match s
    case Literal(_) =>
    case Label(n) =>
      assert SegmentText(s)[1..|SegmentText(s)| - 1] == n;
    case Greedy(n) =>
      assert SegmentText(s)[1..|SegmentText(s)| - 1] == n + "+";
      assert (n + "+")[..|n|] == n;
  }

  lemma CutNothing(s: string, query: string)
    requires '?' !in s
    ensures UpTo(s, '?') == s && UpTo(s + "?" + query, '?') == s
  {
    UpToIs(s, '?');
    UpToSeparator(s, query, '?');
  }

  lemma {:induction false} JoinPlain(parts: seq<string>, c: char)
    requires c != '/' && forall i :: 0 <= i < |parts| ==> c !in parts[i]
    ensures c !in Join(parts, '/')
  {
    if |parts| > 1 {
      JoinPlain(parts[1..], c);
    }
  }

  /** A printed template splits into its segments, with and without the query part
      that templates may have. */
  lemma TemplateSplits(ss: seq<Segment>, query: string)
    requires TemplateOk(ss)
    ensures UpTo(Template(ss), '?') == Template(ss) && UpTo(Template(ss) + "?" + query, '?') == Template(ss)
    ensures SplitPath(Template(ss)) == TemplateParts(ss)
  {
    hide SegmentText, Join, Split, IsLabel, UpTo;
    var parts := TemplateParts(ss);
    forall i | 0 <= i < |parts| ensures Plain(parts[i]) && (parts[i] == [] ==> ss[i] == Literal([])) {
      SegmentReads(ss[i]);
    }
    JoinPlain(parts, '?');
    CutNothing(Template(ss), query);
    assert Template(ss)[1..] == Join(parts, '/');
    NotLoneEmpty(ss);
    PartsSplit(parts);
  }

  lemma NotLoneEmpty(ss: seq<Segment>)
    requires TemplateOk(ss)
    ensures TemplateParts(ss) != [[]]
  {
    hide SegmentText, IsLabel;
    if |ss| == 1 {
      SegmentReads(ss[0]);
      assert ss == [ss[0]];
      assert TemplateParts(ss)[0] == SegmentText(ss[0]);
    }
  }

  /** So the query part of a template plays no part in the match. */
  lemma QueryIgnored(path: string, ss: seq<Segment>, query: string)
    requires TemplateOk(ss)
    ensures Matched(path, Template(ss) + "?" + query) == Matched(path, Template(ss))
  {
    hide UpTo, SplitPath, MatchParts, Template;
    TemplateSplits(ss, query);
  }

  lemma PartsSplit(parts: seq<string>)
    requires parts != [[]] && forall i :: 0 <= i < |parts| ==> '/' !in parts[i]
    ensures (if Join(parts, '/') == [] then [] else Split(Join(parts, '/'), '/')) == parts
  {
    hide *;
    JoinEmpty(parts);
    if parts != [] {
      var n := |parts| - 1;
      assert parts == parts[..n] + [parts[n]];
      FullSplit(parts[..n], parts[n]);
    }
  }

  lemma FullSplit(front: seq<string>, last: string)
    requires '/' !in last && forall i :: 0 <= i < |front| ==> '/' !in front[i]
    ensures Split(Join(front + [last], '/'), '/') == front + [last]
  {
    hide *;
    SplitOfJoin(front, last, '/');
    SplitNone(last, '/');
  }

  lemma JoinEmpty(parts: seq<string>)
    ensures Join(parts, '/') == [] <==> parts == [] || parts == [[]]
  {
    if |parts| == 1 {
      assert parts == [parts[0]];
    }
  }

  /** The expanded path splits into the pieces, the greedy tail into its own. */
  lemma PathSplits(front: seq<string>, last: string)
    requires forall i :: 0 <= i < |front| ==> '/' !in front[i]
    ensures SplitPath(Path(front + [last])) ==
      if front == [] && last == [] then [] else front + Split(last, '/')
  {
    hide Split;
    var joined := Join(front + [last], '/');
    assert Path(front + [last])[1..] == joined;
    SplitOfJoin(front, last, '/');
    if front != [] {
      assert |joined| > 0;
    } else {
      assert front + [last] == [last];
    }
  }

  lemma PieceHasNoSlash(s: Segment, piece: string)
    requires SegmentOk(s) && PieceOk(s, piece) && !s.Greedy?
    ensures '/' !in piece
  {
  }

  /** The path parts of the last piece: its own, or none for an empty tail. */
  ghost predicate TailOf(s: Segment, last: string, tail: seq<string>) {
    tail == Split(last, '/') || (s.Greedy? && last == [] && tail == [])
  }

  /** Matching the pieces one by one. */
  lemma {:induction false} PiecesMatch(ss: seq<Segment>, front: seq<string>, last: string, tail: seq<string>, labels: Labels)
    requires ss != [] && SegmentsOk(ss) && Expands(ss, front + [last]) && TailOf(ss[|ss| - 1], last, tail)
    requires forall i :: 0 <= i < |ss| && !ss[i].Literal? ==> ss[i].name !in labels
    ensures var r := MatchParts(TemplateParts(ss), front + tail, labels);
      && r.Some?
      && (forall k :: k in labels ==> k in r.value && r.value[k] == labels[k])
      && (forall k :: k in r.value <==> k in labels || exists i :: 0 <= i < |ss| && !ss[i].Literal? && ss[i].name == k)
      && (forall i :: 0 <= i < |ss| && !ss[i].Literal? ==> Some(r.value[ss[i].name]) == Unescape((front + [last])[i]))
  {
    hide Unescape, SegmentText, IsLabel, Split, Join, TailOf, SegmentsOk, SegmentOk, Plain;
    var ts, ps := TemplateParts(ss), front + tail;
    RestOk(ss);
    SegmentReads(ss[0]);
    assert ts[1..] == TemplateParts(ss[1..]);
    if front == [] {
      LastMatches(ss, last, tail, labels);
      assert front + tail == tail;
    } else {
      var next := if ss[0].Literal? then labels else labels[ss[0].name := Unescape(front[0]).value];
      assert (front + [last])[0] == front[0];
      assert (front + [last])[1..] == front[1..] + [last] && ps[1..] == front[1..] + tail;
      forall i | 0 <= i < |ss[1..]| ensures PieceOk(ss[1..][i], (front[1..] + [last])[i]) {
        assert PieceOk(ss[i + 1], (front + [last])[i + 1]);
      }
      PiecesMatch(ss[1..], front[1..], last, tail, next);
      assert PieceOk(ss[0], (front + [last])[0]) && ts[0] == SegmentText(ss[0]) && ps[0] == front[0];
      assert MatchParts(ts, ps, labels) == MatchParts(ts[1..], ps[1..], next);
      forall i | 0 <= i < |ss| && !ss[i].Literal?
        ensures Some(MatchParts(ts, ps, labels).value[ss[i].name]) == Unescape((front + [last])[i])
      {
        if i > 0 {
          assert ss[1..][i - 1] == ss[i] && (front[1..] + [last])[i - 1] == (front + [last])[i];
        }
      }
      RenameUnion(ss, ss[1..], MatchParts(ts, ps, labels).value, labels, next);
    }
  }

  lemma RestOk(ss: seq<Segment>)
    requires ss != [] && SegmentsOk(ss)
    ensures SegmentOk(ss[0]) && SegmentsOk(ss[1..]) && (|ss| > 1 ==> !ss[0].Greedy?)
    ensures forall i :: 0 < i < |ss| && !ss[0].Literal? && !ss[i].Literal? ==> ss[i].name != ss[0].name
  {
    hide SegmentOk;
  }

  /** The names bound by the whole are those of the head and of the rest. */
  lemma RenameUnion(ss: seq<Segment>, rest: seq<Segment>, r: Labels, labels: Labels, next: Labels)
    requires ss != [] && rest == ss[1..]
    requires forall k :: k in next <==> k in labels || (!ss[0].Literal? && k == ss[0].name)
    requires forall k :: k in r <==> k in next || exists i :: 0 <= i < |rest| && !rest[i].Literal? && rest[i].name == k
    ensures forall k :: k in r <==> k in labels || exists i :: 0 <= i < |ss| && !ss[i].Literal? && ss[i].name == k
  {
    forall k ensures k in r <==> k in labels || exists i :: 0 <= i < |ss| && !ss[i].Literal? && ss[i].name == k {
      if k in r && k !in labels {
        if k in next {
          assert !ss[0].Literal? && ss[0].name == k;
        } else {
          var i :| 0 <= i < |rest| && !rest[i].Literal? && rest[i].name == k;
          assert ss[i + 1] == rest[i];
        }
      }
      if exists i :: 0 <= i < |ss| && !ss[i].Literal? && ss[i].name == k {
        var i :| 0 <= i < |ss| && !ss[i].Literal? && ss[i].name == k;
        if i > 0 {
          assert rest[i - 1] == ss[i];
        }
      }
    }
  }

  lemma LastMatches(ss: seq<Segment>, last: string, tail: seq<string>, labels: Labels)
    requires |ss| == 1 && SegmentsOk(ss) && PieceOk(ss[0], last) && TailOf(ss[0], last, tail)
    ensures MatchParts(TemplateParts(ss), tail, labels)
         == Some(if ss[0].Literal? then labels else labels[ss[0].name := Unescape(last).value])
  {
    hide Unescape, SegmentText, IsLabel, Split;
    SegmentReads(ss[0]);
    var ts := TemplateParts(ss);
    assert ts == [SegmentText(ss[0])] && ts[1..] == [];
    if ss[0].Greedy? {
      JoinOfSplit(last, '/');
    } else {
      PieceHasNoSlash(ss[0], last);
      SplitNone(last, '/');
      assert Split(last, '/') == [last] && [last][1..] == [] && [last][0] == last;
      assert ts[0] == SegmentText(ss[0]);
    }
  }

  /** For every template and every choice of escaped pieces, the expanded path
      matches and the labels are exactly the decoded pieces; the one exception is
      a template that is a single label, given the empty value. */
  lemma ExpansionMatches(ss: seq<Segment>, pieces: seq<string>)
    requires TemplateOk(ss) && Expands(ss, pieces)
    ensures var r := Matched(Path(pieces), Template(ss));
      if |ss| == 1 && ss[0].Label? && pieces[0] == [] then r == None
      else r.Some? && Binds(ss, pieces, r.value)
  {
    hide Unescape, SegmentText, IsLabel, Split, Join, UpTo, SplitPath, Path, Template, MatchParts, TemplateParts, SegmentsOk, PieceOk, TailOf;
    TemplateSplits(ss, []);
    if ss == [] {
      NoPieces();
      NoSegments();
      assert pieces == [];
    } else {
      var n := |pieces| - 1;
      var front, last := pieces[..n], pieces[n];
      assert pieces == front + [last];
      FrontHasNoSlash(ss, pieces, n);
      PathSplits(front, last);
      if front == [] && last == [] {
        EmptyPath(ss);
        assert ss[0].Label? || ss[0].Greedy?;
      } else {
        assert TailOf(ss[n], last, Split(last, '/')) by { OwnTail(ss[n], last); }
        PiecesBind(ss, front, last, Split(last, '/'));
      }
    }
  }

  lemma OwnTail(s: Segment, last: string)
    ensures TailOf(s, last, Split(last, '/'))
  {
  }

  lemma PiecesBind(ss: seq<Segment>, front: seq<string>, last: string, tail: seq<string>)
    requires ss != [] && SegmentsOk(ss) && Expands(ss, front + [last]) && TailOf(ss[|ss| - 1], last, tail)
    ensures var r := MatchParts(TemplateParts(ss), front + tail, map[]);
      r.Some? && Binds(ss, front + [last], r.value)
  {
    hide Unescape, Split, MatchParts, TemplateParts, SegmentsOk, PieceOk, TailOf;
    PiecesMatch(ss, front, last, tail, map[]);
  }

  lemma FrontHasNoSlash(ss: seq<Segment>, pieces: seq<string>, n: nat)
    requires TemplateOk(ss) && Expands(ss, pieces) && n + 1 == |ss|
    ensures forall i :: 0 <= i < n ==> '/' !in pieces[..n][i]
  {
    hide PieceOk, SegmentOk;
    forall i | 0 <= i < n ensures '/' !in pieces[..n][i] {
      PieceHasNoSlash(ss[i], pieces[i]);
    }
  }

  lemma NoSegments()
    ensures TemplateParts([]) == [] && MatchParts([], [], map[]) == Some(map[])
  {
  }

  lemma NoPieces()
    ensures Path([]) == "/" && SplitPath("/") == []
  {
  }

  /** The bare path against a template of one segment. */
  lemma EmptyPath(ss: seq<Segment>)
    requires |ss| == 1 && TemplateOk(ss) && PieceOk(ss[0], [])
    ensures ss[0].Label? ==> MatchParts(TemplateParts(ss), [], map[]) == None
    ensures ss[0].Greedy? ==> MatchParts(TemplateParts(ss), [], map[]) == Some(map[ss[0].name := []])
    ensures !ss[0].Literal?
    ensures Unescape([]) == Some([])
  {
    SegmentReads(ss[0]);
  }

  /** In particular, percent-encoded values come back as they were; a greedy
      label's value may contain slashes, encoded or let through. */
  lemma EncodedValuesMatch(ss: seq<Segment>, values: seq<string>)
    requires TemplateOk(ss) && |values| == |ss|
    requires forall i :: 0 <= i < |ss| ==> IsBytes(values[i]) && (ss[i].Literal? ==> values[i] == ss[i].text)
    requires !(|ss| == 1 && ss[0].Label? && values[0] == [])
    ensures var r := Matched(Path(EncodedPieces(ss, values)), Template(ss));
      && r.Some?
      && (forall k :: k in r.value <==> exists i :: 0 <= i < |ss| && !ss[i].Literal? && ss[i].name == k)
      && (forall i :: 0 <= i < |ss| && !ss[i].Literal? ==> r.value[ss[i].name] == values[i])
  {
    hide Unescape, Encode, Matched, Path, Template, IsBytes, TemplateOk;
    var pieces := EncodedPieces(ss, values);
    forall i | 0 <= i < |ss| ensures PieceOk(ss[i], pieces[i])
      && (!ss[i].Literal? ==> Unescape(pieces[i]) == Some(values[i]))
    {
      EncodedPieceOk(ss[i], values[i]);
    }
    ExpansionMatches(ss, pieces);
    if |ss| == 1 {
      EncodeEmpty(values[0]);
    }
  }

  // ----- and nothing else matches

  /** The path parts spell the pieces; a greedy label may also be left out whole,
      with the slash in front of it. */
  ghost predicate Spelled(ss: seq<Segment>, pieces: seq<string>, ps: seq<string>) {
    && |pieces| == |ss|
    && if ss == [] then ps == []
       else
         var n := |ss| - 1;
         ps == pieces[..n] + Split(pieces[n], '/') || (ss[n].Greedy? && pieces[n] == [] && ps == pieces[..n])
  }

  lemma SpelledMatches(ss: seq<Segment>, pieces: seq<string>, ps: seq<string>)
    requires SegmentsOk(ss) && Expands(ss, pieces) && Spelled(ss, pieces, ps)
    ensures var r := MatchParts(TemplateParts(ss), ps, map[]);
      r.Some? && Binds(ss, pieces, r.value)
  {
    hide Unescape, Split, MatchParts, TemplateParts, SegmentsOk, PieceOk;
    if ss == [] {
      NoSegments();
    } else {
      var n := |ss| - 1;
      var front, last := pieces[..n], pieces[n];
      assert pieces == front + [last];
      if ps == front + Split(last, '/') {
        PiecesBind(ss, front, last, Split(last, '/'));
      } else {
        assert front + [] == ps;
        PiecesBind(ss, front, last, []);
      }
    }
  }

  /** Whatever parts match spell some pieces. */
  lemma {:induction false} MatchSpells(ss: seq<Segment>, ps: seq<string>, labels: Labels) returns (pieces: seq<string>)
    requires SegmentsOk(ss) && forall i :: 0 <= i < |ps| ==> '/' !in ps[i]
    requires MatchParts(TemplateParts(ss), ps, labels).Some?
    ensures Expands(ss, pieces) && Spelled(ss, pieces, ps)
    decreases |ss|
  {
    hide Unescape, SegmentText, IsLabel, Split, Join;
    if ss == [] {
      pieces := [];
    } else {
      SegmentReads(ss[0]);
      var ts := TemplateParts(ss);
      assert ts[0] == SegmentText(ss[0]) && ts[1..] == TemplateParts(ss[1..]);
      if ss[0].Greedy? {
        assert |ss| == 1;
        pieces := [Join(ps, '/')];
        GreedySpells(ss[0], ps);
      } else {
        var next := if ss[0].Literal? then labels else labels[ss[0].name := Unescape(ps[0]).value];
        var rest := MatchSpells(ss[1..], ps[1..], next);
        pieces := [ps[0]] + rest;
        SpelledMore(ss, rest, ps);
      }
    }
  }

  lemma GreedySpells(s: Segment, ps: seq<string>)
    requires s.Greedy? && forall i :: 0 <= i < |ps| ==> '/' !in ps[i]
    ensures Spelled([s], [Join(ps, '/')], ps)
  {
    hide Split, Join;
    JoinEmpty(ps);
    var pieces := [Join(ps, '/')];
    assert pieces[..0] == [] && pieces[0] == Join(ps, '/');
    if ps != [] {
      SplitBack(ps);
      assert ps == pieces[..0] + Split(pieces[0], '/');
    }
  }

  lemma SplitBack(ps: seq<string>)
    requires ps != [] && forall i :: 0 <= i < |ps| ==> '/' !in ps[i]
    ensures Split(Join(ps, '/'), '/') == ps
  {
    hide *;
    var n := |ps| - 1;
    assert ps == ps[..n] + [ps[n]];
    FullSplit(ps[..n], ps[n]);
  }

  lemma SpelledMore(ss: seq<Segment>, rest: seq<string>, ps: seq<string>)
    requires ss != [] && ps != [] && !ss[0].Greedy? && '/' !in ps[0] && Spelled(ss[1..], rest, ps[1..])
    ensures Spelled(ss, [ps[0]] + rest, ps)
  {
    hide Split;
    var pieces, n := [ps[0]] + rest, |ss| - 1;
    assert ps == [ps[0]] + ps[1..];
    if n == 0 {
      SplitNone(ps[0], '/');
    } else {
      assert pieces[..n] == [ps[0]] + rest[..n - 1] && pieces[n] == rest[n - 1];
      assert ss[1..][n - 1] == ss[n];
    }
  }

  lemma BindsOne(ss: seq<Segment>, pieces: seq<string>, a: Labels, b: Labels)
    requires |pieces| == |ss| && Binds(ss, pieces, a) && Binds(ss, pieces, b)
    ensures a == b
  {
    hide Unescape;
    forall k | k in a
      ensures k in b && a[k] == b[k]
    {
      var i :| 0 <= i < |ss| && !ss[i].Literal? && ss[i].name == k;
      assert Some(a[k]) == Unescape(pieces[i]);
    }
  }

  lemma {:induction false} SplitClean(s: string)
    ensures forall i :: 0 <= i < |Split(s, '/')| ==> '/' !in Split(s, '/')[i]
  {
    if s != [] {
      SplitClean(s[1..]);
    }
  }

  /** The match, exactly: a path matches with some labels if and only if it spells
      pieces that expand the template and decode to those labels. */
  lemma MatchIff(ss: seq<Segment>, path: string, labels: Labels)
    requires TemplateOk(ss)
    ensures Matched(path, Template(ss)) == Some(labels) <==>
      exists pieces :: Expands(ss, pieces) && Spelled(ss, pieces, SplitPath(path)) && Binds(ss, pieces, labels)
  {
    hide Unescape, Split, MatchParts, TemplateParts, Template, SegmentsOk, PieceOk, Spelled, Binds, UpTo;
    TemplateSplits(ss, []);
    var ps := SplitPath(path);
    SplitClean(if path != [] && path[0] == '/' then path[1..] else path);
    if Matched(path, Template(ss)) == Some(labels) {
      var pieces := MatchSpells(ss, ps, map[]);
      SpelledMatches(ss, pieces, ps);
    }
    if pieces :| Expands(ss, pieces) && Spelled(ss, pieces, ps) && Binds(ss, pieces, labels) {
      SpelledMatches(ss, pieces, ps);
      SpelledSize(ss, pieces, ps);
      BindsOne(ss, pieces, MatchParts(TemplateParts(ss), ps, map[]).value, labels);
    }
  }

  lemma SpelledSize(ss: seq<Segment>, pieces: seq<string>, ps: seq<string>)
    requires Spelled(ss, pieces, ps)
    ensures |pieces| == |ss|
  {
  }

  /** A greedy label may be missing: this path matches although no expansion of
      the template splits as it does. */
  lemma GreedyMayBeMissing()
    ensures TemplateOk(TAIL_TEMPLATE)
    ensures Matched("/a", Template(TAIL_TEMPLATE)) == Some(map["k" := ""])
    ensures forall pieces :: Expands(TAIL_TEMPLATE, pieces) ==> SplitPath(Path(pieces)) != SplitPath("/a")
  {
    hide Split, MatchParts, Template, Matched, Path, Expands, Binds, Spelled, TemplateOk;
    MissingTail();
    MatchIff(TAIL_TEMPLATE, "/a", map["k" := ""]);
    forall pieces | Expands(TAIL_TEMPLATE, pieces)
      ensures SplitPath(Path(pieces)) != SplitPath("/a")
    {
      TwoParts(pieces);
    }
  }

  /** The template "/a/{k+}". */
  const TAIL_TEMPLATE := [Literal("a"), Greedy("k")]

  lemma MissingTail()
    ensures TemplateOk(TAIL_TEMPLATE) && SplitPath("/a") == ["a"]
    ensures Expands(TAIL_TEMPLATE, ["a", ""]) && Spelled(TAIL_TEMPLATE, ["a", ""], ["a"])
    ensures Binds(TAIL_TEMPLATE, ["a", ""], map["k" := ""])
  {
    hide Split;
    SplitNone("a", '/');
    assert "/a"[1..] == "a";
    assert Unescape("") == Some("");
    assert TAIL_TEMPLATE[1].name == "k";
    assert ["a", ""][..1] == ["a"];
  }

  lemma TwoParts(pieces: seq<string>)
    requires Expands(TAIL_TEMPLATE, pieces)
    ensures |SplitPath(Path(pieces))| >= 2
  {
    hide Split, SplitPath, Path;
    assert pieces == [pieces[0]] + [pieces[1]];
    assert PieceOk(TAIL_TEMPLATE[0], pieces[0]);
    PathSplits([pieces[0]], pieces[1]);
  }

  lemma EncodeEmpty(v: string)
    ensures Encode(v, true) == [] ==> v == []
  {
  }

  function EncodedPiece(s: Segment, v: string): string {
    match s
    case Literal(t) => t
    case Label(_) => Encode(v, true)
    case Greedy(_) => Encode(v, false)
  }

  function EncodedPieces(ss: seq<Segment>, values: seq<string>): (r: seq<string>)
    requires |values| == |ss|
    ensures |r| == |ss|
  {
    seq(|ss|, i requires 0 <= i < |ss| => EncodedPiece(ss[i], values[i]))
  }

  lemma EncodedPieceOk(s: Segment, v: string)
    requires IsBytes(v)
    ensures PieceOk(s, EncodedPiece(s, v))
    ensures !s.Literal? ==> Unescape(EncodedPiece(s, v)) == Some(v)
  {
    hide Encode, Unescape;
    UnescapeEncode(v, true);
    UnescapeEncode(v, false);
    EncodeAlphabet(v, true);
  }
}
