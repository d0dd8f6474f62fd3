/** The Location headers of internal/registry/ocidistribution/router.go as a client
    follows them: read as a URI reference and resolved, then served again. */
module OciLocations {
  import opened Options
  import opened UriText
  import opened OciPaths

  // ----- reading a Location

  /** The characters of a URI path, escapes included (RFC 3986 section 3.3). */
  predicate PathChar(c: char) {
    || Unreserved(c) || c == '%' || c == '/' || c == ':' || c == '@'
    || c == '!' || c == '$' || c == '&' || c == '\'' || c == '(' || c == ')' || c == '*' || c == '+' || c == ',' || c == ';' || c == '='
  }

  lemma PathChars()
    ensures forall c :: PathChar(c) <==>
      'a' <= c <= 'z' || 'A' <= c <= 'Z' || '0' <= c <= '9' || c in "-._~%/:@!$&'()*+,;="
  {
    var others := "-._~%/:@!$&'()*+,;=";
    forall c ensures c in others <==> exists i :: 0 <= i < |others| && others[i] == c {
    }
  }

  /** What precedes the query and the fragment. */
  function BeforeMark(s: string): string {
    UpTo(UpTo(s, '#'), '?')
  }

  /** Dot segments removed (RFC 3986 section 5.2.4); `out` is what is kept so far
      and its first segment, the root, is never taken back. */
  function Undotted(segs: seq<string>, out: seq<string>): seq<string> {
    if segs == [] then out
    else if segs[0] == "." then
      if |segs| == 1 then out + [""] else Undotted(segs[1..], out)
    else if segs[0] == ".." then
      var up := if |out| > 1 then out[..|out| - 1] else out;
      if |segs| == 1 then up + [""] else Undotted(segs[1..], up)
    else Undotted(segs[1..], out + [segs[0]])
  }

  function Resolved(path: string): string {
    Join(Undotted(Split(path, '/'), []), '/')
  }

  ghost predicate AllPathChars(s: string) {
    forall i :: 0 <= i < |s| ==> PathChar(s[i])
  }

  /** The path of the request a client makes: none for a text that is no path
      reference, and otherwise resolved and decoded. */
  ghost function Read(location: string): Option<string> {
    var path := BeforeMark(location);
    if AllPathChars(path) then Unescape(Resolved(path)) else None
  }

  ghost function Follow(location: string): Option<Parsed> {
    match Read(location)
    case None => None
    case Some(path) => Served(path)
  }

  // ----- texts that stand for themselves

  predicate Dots(seg: string) { seg == "." || seg == ".." }

  ghost predicate DotFree(segs: seq<string>) {
    forall i :: 0 <= i < |segs| ==> !Dots(segs[i])
  }

  /** Path characters, no escape and no dot segment. */
  ghost predicate Clean(s: string) {
    AllPathChars(s) && '%' !in s && DotFree(Split(s, '/'))
  }

  lemma NoMark(s: string)
    ensures BeforeMark(s) <= s && '?' !in BeforeMark(s) && '#' !in BeforeMark(s)
    ensures '?' !in s && '#' !in s ==> BeforeMark(s) == s
    ensures BeforeMark(s) != s ==> '?' in s || '#' in s
  {
    hide UpTo;
    UpToIs(s, '#');
    UpToIs(UpTo(s, '#'), '?');
  }

  lemma {:induction false} NothingRemoved(segs: seq<string>, out: seq<string>)
    requires DotFree(segs)
    ensures Undotted(segs, out) == out + segs
    decreases |segs|
  {
    if segs != [] {
      NothingRemoved(segs[1..], out + [segs[0]]);
      assert out + segs == (out + [segs[0]]) + segs[1..];
    }
  }

  /** The characters of a joined list, and one for each segment. */
  function Size(segs: seq<string>): nat {
    if segs == [] then 0 else |segs[0]| + 1 + Size(segs[1..])
  }

  lemma {:induction false} SizeOfJoin(segs: seq<string>)
    ensures segs != [] ==> |Join(segs, '/')| + 1 == Size(segs)
  {
    if |segs| > 1 {
      SizeOfJoin(segs[1..]);
    }
  }

  lemma {:induction false} SizeAppend(a: seq<string>, b: seq<string>)
    ensures Size(a + b) == Size(a) + Size(b)
  {
    if a == [] {
      assert a + b == b;
    } else {
      SizeAppend(a[1..], b);
      assert (a + b)[1..] == a[1..] + b;
    }
  }

  lemma SizeOne(s: string)
    ensures Size([s]) == |s| + 1
  {
    assert [s][1..] == [];
  }

  lemma SizeUp(out: seq<string>)
    ensures out != [] ==> Size(out[..|out| - 1]) <= Size(out)
  {
    if out != [] {
      var n := |out| - 1;
      assert out == out[..n] + [out[n]];
      SizeAppend(out[..n], [out[n]]);
    }
  }

  /** A removed segment costs two characters, or one and leaves a slash at the end. */
  lemma {:induction false} RemovedSize(segs: seq<string>, out: seq<string>)
    ensures Size(Undotted(segs, out)) <= Size(out) + Size(segs)
    ensures segs != [] ==> Undotted(segs, out) != []
    ensures var r := Undotted(segs, out);
      !DotFree(segs) ==> Size(r) + 2 <= Size(out) + Size(segs) || (Size(r) + 1 <= Size(out) + Size(segs) && r[|r| - 1] == "")
    decreases |segs|
  {
    hide Size;
    NoSize();
    if segs != [] {
      var s := segs[0];
      assert segs == [s] + segs[1..];
      SizeAppend([s], segs[1..]);
      SizeOne(s);
      SizeOne("");
      if s == "." {
        if |segs| == 1 {
          SizeAppend(out, [""]);
        } else {
          RemovedSize(segs[1..], out);
        }
      } else if s == ".." {
        var up := if |out| > 1 then out[..|out| - 1] else out;
        SizeUp(out);
        if |segs| == 1 {
          SizeAppend(up, [""]);
        } else {
          RemovedSize(segs[1..], up);
        }
      } else {
        RemovedSize(segs[1..], out + [s]);
        SizeAppend(out, [s]);
        if |segs| == 1 {
          assert Undotted(segs, out) == out + [s];
        }
      }
    }
  }

  lemma NoSize()
    ensures Size([]) == 0
  {
  }

  lemma {:induction false} LastEmpty(segs: seq<string>)
    requires |segs| > 1 && segs[|segs| - 1] == ""
    ensures HasSuffix(Join(segs, '/'), "/")
    decreases |segs|
  {
    hide HasSuffix;
    if |segs| == 2 {
      assert Join(segs, '/') == segs[0] + "/" by { assert segs[1..] == [""]; }
      EndsInSlash(segs[0], "/");
      SlashEnds();
    } else {
      LastEmpty(segs[1..]);
      EndsInSlash(segs[0] + "/", Join(segs[1..], '/'));
      assert Join(segs[1..], '/') != [] by { JoinLong(segs[1..]); }
    }
  }

  lemma SlashEnds()
    ensures HasSuffix("/", "/")
  {
    assert "/"[0..1] == "/";
  }

  lemma JoinLong(segs: seq<string>)
    requires |segs| > 1
    ensures Join(segs, '/') != []
  {
  }

  /** Resolving keeps a text without dot segments; any other one, a slash at its end
      aside, loses two characters. */
  lemma ResolvedShrinks(path: string)
    ensures DotFree(Split(path, '/')) ==> Resolved(path) == path
    ensures |Resolved(path)| <= |path|
    ensures !DotFree(Split(path, '/')) ==> |Resolved(path)| < |path|
    ensures !DotFree(Split(path, '/')) ==> |TrimSuffix(Resolved(path), "/")| + 2 <= |path| || |Resolved(path)| == 0
  {
    hide Split, Join, Undotted, Size, DotFree, HasSuffix, TrimSuffix;
    var segs := Split(path, '/');
    var r := Undotted(segs, []);
    JoinOfSplit(path, '/');
    NoSize();
    RemovedSize(segs, []);
    SizeOfJoin(segs);
    SizeOfJoin(r);
    TrimIsPrefix(Resolved(path), "/");
    if DotFree(segs) {
      NothingRemoved(segs, []);
      assert [] + segs == segs;
    } else if Size(r) + 2 > Size(segs) {
      if |r| > 1 {
        LastEmpty(r);
        Trimmed(Resolved(path), "/");
      } else {
        assert r == [""];
        OneEmpty();
      }
    }
  }

  lemma OneEmpty()
    ensures Join([""], '/') == []
  {
  }

  // ----- Locations read whole

  lemma {:induction false} SplitAcross(a: string, b: string)
    ensures Split(a + "/" + b, '/') == Split(a, '/') + Split(b, '/')
  {
    hide Split;
    if a == [] {
      SplitHead('/', b);
      SplitNone("", '/');
      assert [] + "/" + b == ['/'] + b;
    } else {
      SplitAcross(a[1..], b);
      SplitHead(a[0], a[1..]);
      SplitHead(a[0], a[1..] + "/" + b);
      assert a == [a[0]] + a[1..] && a + "/" + b == [a[0]] + (a[1..] + "/" + b);
      var front, back := Split(a[1..], '/'), Split(b, '/');
      assert (front + back)[0] == front[0] && (front + back)[1..] == front[1..] + back;
    }
  }

  lemma SplitHead(c: char, t: string)
    ensures Split([c] + t, '/') ==
      if c == '/' then [[]] + Split(t, '/') else [[c] + Split(t, '/')[0]] + Split(t, '/')[1..]
  {
    assert ([c] + t)[1..] == t;
  }

  /** Around slashes a text is clean exactly when its two sides are. */
  lemma CleanAcross(a: string, b: string)
    ensures Clean(a + "/" + b) <==> Clean(a) && Clean(b)
  {
    hide Split, PathChar, Dots;
    SlashIsPathChar();
    SplitAcross(a, b);
    var s := a + "/" + b;
    assert forall i :: 0 <= i < |a| ==> s[i] == a[i];
    assert forall i :: 0 <= i < |b| ==> s[|a| + 1 + i] == b[i];
    var sa, sb := Split(a, '/'), Split(b, '/');
    assert forall i :: 0 <= i < |sa| ==> (sa + sb)[i] == sa[i];
    assert forall i :: 0 <= i < |sb| ==> (sa + sb)[|sa| + i] == sb[i];
  }

  lemma SlashIsPathChar()
    ensures PathChar('/')
  {
  }

  lemma CleanWords()
    ensures Clean("") && Clean("v2") && Clean("blobs") && Clean("uploads") && Clean("manifests")
  {
    hide Clean;
    CleanWord("");
    CleanWord("v2");
    CleanWord("blobs");
    CleanWord("uploads");
    CleanWord("manifests");
  }

  lemma CleanWord(s: string)
    requires forall i :: 0 <= i < |s| ==> 'a' <= s[i] <= 'z' || '0' <= s[i] <= '9'
    ensures Clean(s)
  {
    hide Split;
    SplitNone(s, '/');
    DotFirst(s);
  }

  lemma DotFirst(s: string)
    ensures Dots(s) ==> s != "" && s[0] == '.'
  {
  }

  lemma CleanUnderV2(repo: string, rest: string)
    ensures Clean("/v2/" + repo + "/" + rest) <==> Clean(repo) && Clean(rest)
  {
    hide Clean;
    CleanWords();
    CleanAcross("", "v2");
    assert "" + "/" + "v2" == "/v2";
    CleanAcross("/v2", repo);
    assert "/v2" + "/" + repo == "/v2/" + repo;
    CleanAcross("/v2/" + repo, rest);
  }

  /** A Location is clean exactly when the repository and the ID or digest are. */
  lemma UploadClean(repo: string, id: string)
    ensures Clean(UploadLocation(repo, id)) <==> Clean(repo) && Clean(id)
  {
    hide Clean;
    CleanWords();
    CleanAcross("blobs", "uploads");
    CleanAcross("blobs" + "/" + "uploads", id);
    CleanUnderV2(repo, "blobs" + "/" + "uploads" + "/" + id);
    assert UploadLocation(repo, id) == "/v2/" + repo + "/" + ("blobs" + "/" + "uploads" + "/" + id);
  }

  lemma BlobClean(repo: string, digest: string)
    ensures Clean(BlobLocation(repo, digest)) <==> Clean(repo) && Clean(digest)
  {
    hide Clean;
    CleanWords();
    CleanAcross("blobs", digest);
    CleanUnderV2(repo, "blobs" + "/" + digest);
    assert BlobLocation(repo, digest) == "/v2/" + repo + "/" + ("blobs" + "/" + digest);
  }

  lemma ManifestClean(repo: string, digest: string)
    ensures Clean(ManifestLocation(repo, digest)) <==> Clean(repo) && Clean(digest)
  {
    hide Clean;
    CleanWords();
    CleanAcross("manifests", digest);
    CleanUnderV2(repo, "manifests" + "/" + digest);
    assert ManifestLocation(repo, digest) == "/v2/" + repo + "/" + ("manifests" + "/" + digest);
  }

  /** A clean text is read as it stands, and nothing else is. */
  lemma CleanReads(location: string)
    ensures Read(location) == Some(location) <==> Clean(location)
  {
    hide Split, Resolved, Unescape, PathChar, DotFree;
    var path := BeforeMark(location);
    NoMark(location);
    ResolvedShrinks(path);
    UnescapeShrinks(Resolved(path));
    MarksAreNot();
    if Clean(location) {
      assert '?' !in location && '#' !in location;
    }
  }

  lemma MarksAreNot()
    ensures !PathChar('?') && !PathChar('#')
  {
  }

  /** A Location that is not read as it stands is too short, or has lost a mark, to
      be served as what it was made from. */
  lemma OnlyCleanLeadsBack(location: string, p: Parsed)
    requires p.kind in {Upload, Blob, Manifest}
    requires |location| <= 5 + |p.name| + |MarkerOf(p.kind)| + |p.arg|
    requires forall c :: c in location && (c == '?' || c == '#') ==> c in p.name || c in p.arg
    requires Follow(location) == Some(p)
    ensures Clean(location)
  {
    hide Split, Resolved, Unescape, PathChar, DotFree, Served, TrimSuffix, Clean, AllPathChars, BeforeMark, MarkerOf;
    var path := BeforeMark(location);
    var followed := Read(location).value;
    NoMark(location);
    ResolvedShrinks(path);
    UnescapeShrinks(Resolved(path));
    ServedHolds(followed);
    TrimIsPrefix(followed, "/");
    assert followed == Resolved(path);
    assert DotFree(Split(path, '/'));
    assert '?' !in p.name && '?' !in p.arg && '#' !in p.name && '#' !in p.arg;
    assert followed == path == location;
    CleanReads(location);
  }

  // ----- which Locations lead back

  /** What keeps an upload Location whole, and readable as one. */
  ghost predicate UploadReturns(repo: string, id: string) {
    && Clean(repo) && Clean(id)
    && repo != "" && !Contains(repo, UPLOADS)
    && id != "" && !HasSuffix(id, "/") && !HasSuffix("/" + id, TAGS_LIST)
  }

  ghost predicate BlobReturns(repo: string, digest: string) {
    && Clean(repo) && Clean(digest)
    && repo != "" && !Contains(repo + "/", BLOBS) && !("uploads" <= digest)
  }

  ghost predicate ManifestReturns(repo: string, digest: string) {
    && Clean(repo) && Clean(digest)
    && repo != "" && !Contains(repo + "/", BLOBS) && !Contains(repo + "/", MANIFESTS)
  }

  /** A client that follows an upload Location comes back to the same upload if and
      only if the repository and the ID stand for themselves in a path, the name is
      non-empty and free of the uploads marker, and the ID is non-empty, does not
      end in a slash and does not read as a tag listing. */
  lemma UploadLeadsBack(repo: string, id: string)
    ensures Follow(UploadLocation(repo, id)) == Some(Parsed(repo, Upload, id, true)) <==> UploadReturns(repo, id)
  {
    hide Clean, Contains, HasSuffix, Served, Read;
    var location, p := UploadLocation(repo, id), Parsed(repo, Upload, id, true);
    UploadClean(repo, id);
    CleanReads(location);
    UploadParsesBack(repo, id);
    if Follow(location) == Some(p) {
      UploadMarks(repo, id);
      OnlyCleanLeadsBack(location, p);
    }
  }

  lemma UploadMarks(repo: string, id: string)
    ensures |UploadLocation(repo, id)| == 5 + |repo| + |UPLOADS| + |id|
    ensures forall c :: c in UploadLocation(repo, id) && (c == '?' || c == '#') ==> c in repo || c in id
  {
  }

  /** The blob Location of a digest likewise. */
  lemma BlobLeadsBack(repo: string, digest: string)
    requires digest != "" && '/' !in digest
    ensures Follow(BlobLocation(repo, digest)) == Some(Parsed(repo, Blob, digest, true)) <==> BlobReturns(repo, digest)
  {
    hide Clean, Contains, Served, Read;
    var location, p := BlobLocation(repo, digest), Parsed(repo, Blob, digest, true);
    BlobClean(repo, digest);
    CleanReads(location);
    BlobParsesBack(repo, digest);
    if Follow(location) == Some(p) {
      BlobMarks(repo, digest);
      OnlyCleanLeadsBack(location, p);
    }
  }

  lemma BlobMarks(repo: string, digest: string)
    ensures |BlobLocation(repo, digest)| == 4 + |repo| + |BLOBS| + |digest|
    ensures forall c :: c in BlobLocation(repo, digest) && (c == '?' || c == '#') ==> c in repo || c in digest
  {
  }

  /** And the manifest Location. */
  lemma ManifestLeadsBack(repo: string, digest: string)
    requires digest != "" && '/' !in digest
    ensures Follow(ManifestLocation(repo, digest)) == Some(Parsed(repo, Manifest, digest, true)) <==> ManifestReturns(repo, digest)
  {
    hide Clean, Contains, Served, Read;
    var location, p := ManifestLocation(repo, digest), Parsed(repo, Manifest, digest, true);
    ManifestClean(repo, digest);
    CleanReads(location);
    ManifestParsesBack(repo, digest);
    if Follow(location) == Some(p) {
      ManifestMarks(repo, digest);
      OnlyCleanLeadsBack(location, p);
    }
  }

  lemma ManifestMarks(repo: string, digest: string)
    ensures |ManifestLocation(repo, digest)| == 4 + |repo| + |MANIFESTS| + |digest|
    ensures forall c :: c in ManifestLocation(repo, digest) && (c == '?' || c == '#') ==> c in repo || c in digest
  {
  }

  /** The name of a served upload path holds no uploads marker. */
  lemma ServedUploadName(path: string)
    requires Served(path).Some? && Served(path).value.kind in {UploadStart, Upload}
    ensures Served(path).value.name != "" && !Contains(Served(path).value.name, UPLOADS)
  {
    hide TrimSuffix, HasSuffix;
    var name := Served(path).value.name;
    var rest := TrimSuffix(TrimPrefix(path, V2), "/");
    var i := Index(rest, UPLOADS).value;
    assert name == rest[..i];
    forall j: nat ensures !OccursAt(name, UPLOADS, j) {
      if j + |UPLOADS| <= i {
        assert rest == name + rest[i..];
        InFront(name, rest[i..], UPLOADS, j);
      }
    }
  }

  /** From any upload path that is served, to begin an upload or to go on with one,
      and for any slash-free ID, the Location sent leads to that upload if and only
      if the repository and the ID stand for themselves in a path. */
  lemma UploadLocationsLeadBack(path: string, id: string)
    requires Served(path).Some? && Served(path).value.kind in {UploadStart, Upload}
    requires id != "" && '/' !in id
    ensures var name := Served(path).value.name; var p := Parsed(name, Upload, id, true);
      && Served(UploadLocation(name, id)) == Some(p)
      && (Follow(UploadLocation(name, id)) == Some(p) <==> Clean(name) && Clean(id))
  {
    hide Served, Contains, HasSuffix, Clean, Read;
    var name := Served(path).value.name;
    ServedUploadName(path);
    SlashFree(id);
    UploadParsesBack(name, id);
    UploadLeadsBack(name, id);
  }

  /** A served upload whose Location is lost: the name holds a question mark. */
  lemma QuestionMarkLost()
    ensures Served("/v2/a?b/blobs/uploads/x") == Some(Parsed("a?b", Upload, "x", true))
    ensures Follow(UploadLocation("a?b", "x")) != Some(Parsed("a?b", Upload, "x", true))
  {
    hide Served, Read, Contains, HasSuffix, Split;
    var name := "a?b";
    UploadLeadsBack(name, "x");
    assert !PathChar(name[1]) && !AllPathChars(name);
    NoUploads(name);
    SlashFree("x");
    UploadParsesBack(name, "x");
    assert UploadLocation(name, "x") == "/v2/a?b/blobs/uploads/x";
  }

  lemma NoUploads(name: string)
    requires |name| < |UPLOADS|
    ensures !Contains(name, UPLOADS)
  {
  }

  // ----- the handlers that send them

  datatype Session = Session(id: string, offset: int)

  /** An http.ResponseWriter: the status and the headers set so far. */
  class Response {
    var status: int
    var headers: map<string, string>

    constructor ()
      ensures status == 0 && headers == map[]
    {
      status, headers := 0, map[];
    }

    method Set(name: string, value: string)
      modifies this`headers
      ensures headers == old(headers)[name := value]
    {
      headers := headers[name := value];
    }
  }

  function Decimal(n: nat): string {
    if n < 10 then [('0' as int + n) as char] else Decimal(n / 10) + [('0' as int + n % 10) as char]
  }

  /** The range of bytes committed, as the upload answer states it. */
  function CommittedRange(offset: int): string {
    if offset > 0 then "0-" + Decimal(offset - 1) else "0-0"
  }

  function DecimalValue(s: string): int {
    if s == [] then 0 else 10 * DecimalValue(s[..|s| - 1]) + (s[|s| - 1] as int - '0' as int)
  }

  lemma {:induction false} DecimalReads(n: nat)
    ensures DecimalValue(Decimal(n)) == n
    ensures Decimal(n) != [] && (forall c :: c in Decimal(n) ==> '0' <= c <= '9') && (n > 0 ==> Decimal(n)[0] != '0')
  {
    if n < 10 {
      assert Decimal(n)[..0] == [];
    } else {
      DecimalReads(n / 10);
      assert Decimal(n)[..|Decimal(n)| - 1] == Decimal(n / 10);
    }
  }

  /** The range ends at the last byte committed, in decimal; none committed reads
      like one. */
  lemma RangeReads(offset: int)
    ensures var r := CommittedRange(offset);
      r[..2] == "0-" && DecimalValue(r[2..]) == (if offset > 1 then offset - 1 else 0)
      && forall c :: c in r[2..] ==> c in "0123456789"
  {
    hide Decimal, DecimalValue;
    if offset > 0 {
      DecimalReads(offset - 1);
      assert ("0-" + Decimal(offset - 1))[2..] == Decimal(offset - 1);
      TenDigits();
    } else {
      ZeroRange();
    }
  }

  lemma ZeroRange()
    ensures "0-0"[2..] == "0" && DecimalValue("0") == 0
  {
    assert "0"[..0] == [];
  }

  lemma TenDigits()
    ensures forall c :: '0' <= c <= '9' ==> c in "0123456789"
  {
    var digits := "0123456789";
    forall c | '0' <= c <= '9' ensures c in digits {
      assert digits[c as int - 48] == c;
    }
  }

  const ACCEPTED := 202
  const CREATED := 201

  method WriteUploadAccepted(w: Response, repo: string, sess: Session)
    modifies w
    ensures w.status == 202
    ensures w.headers == old(w.headers)["Location" := UploadLocation(repo, sess.id)]["Docker-Upload-UUID" := sess.id]["Range" := CommittedRange(sess.offset)]
    ensures Follow(w.headers["Location"]) == Some(Parsed(repo, Upload, sess.id, true)) <==> UploadReturns(repo, sess.id)
  {
    hide Follow, UploadReturns, BlobReturns;
    w.Set("Location", "/v2/" + repo + "/blobs/uploads/" + sess.id);
    w.Set("Docker-Upload-UUID", sess.id);
    if sess.offset > 0 {
      w.Set("Range", "0-" + Decimal(sess.offset - 1));
    } else {
      w.Set("Range", "0-0");
    }
    w.status := ACCEPTED;
    UploadLeadsBack(repo, sess.id);
  }

  method WriteBlobCreated(w: Response, repo: string, digest: string)
    modifies w
    ensures w.status == 201
    ensures w.headers == old(w.headers)["Location" := BlobLocation(repo, digest)]["Docker-Content-Digest" := digest]
    ensures digest != "" && '/' !in digest ==>
      (Follow(w.headers["Location"]) == Some(Parsed(repo, Blob, digest, true)) <==> BlobReturns(repo, digest))
  {
    hide Follow, UploadReturns, BlobReturns;
    w.Set("Location", "/v2/" + repo + "/blobs/" + digest);
    w.Set("Docker-Content-Digest", digest);
    w.status := CREATED;
    if digest != "" && '/' !in digest {
      BlobLeadsBack(repo, digest);
    }
  }

  method WriteManifestCreated(w: Response, repo: string, digest: string)
    modifies w
    ensures w.status == 201
    ensures w.headers == old(w.headers)["Docker-Content-Digest" := digest]["Location" := ManifestLocation(repo, digest)]
    ensures digest != "" && '/' !in digest ==>
      (Follow(w.headers["Location"]) == Some(Parsed(repo, Manifest, digest, true)) <==> ManifestReturns(repo, digest))
  {
    hide Follow, ManifestReturns;
    w.Set("Docker-Content-Digest", digest);
    w.Set("Location", "/v2/" + repo + "/manifests/" + digest);
    w.status := CREATED;
    if digest != "" && '/' !in digest {
      ManifestLeadsBack(repo, digest);
    }
  }
}
