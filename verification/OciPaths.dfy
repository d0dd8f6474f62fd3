/** The /v2/ paths of the OCI Distribution router, and what they are parsed into:
    internal/registry/ocidistribution/parse.go and router.go. */
module OciPaths {
  import opened Options

  const V2 := "/v2/"
  const TAGS_LIST := "/tags/list"
  const UPLOADS := "/blobs/uploads"
  const BLOBS := "/blobs/"
  const MANIFESTS := "/manifests/"

  // ----- strings

  predicate OccursAt(s: string, m: string, i: nat) {
    i + |m| <= |s| && s[i..i + |m|] == m
  }

  predicate HasSuffix(s: string, m: string) {
    |m| <= |s| && OccursAt(s, m, |s| - |m|)
  }

  function TrimSuffix(s: string, m: string): string {
    if HasSuffix(s, m) then s[..|s| - |m|] else s
  }

  function TrimPrefix(s: string, m: string): string {
    if m <= s then s[|m|..] else s
  }

  ghost predicate Contains(s: string, m: string) {
    exists i: nat :: OccursAt(s, m, i)
  }

  /** strings.Index, from position i on. */
  function IndexFrom(s: string, m: string, i: nat): (r: Option<nat>)
    requires i <= |s|
    ensures r.Some? ==> i <= r.value && OccursAt(s, m, r.value)
    ensures r.Some? ==> forall j :: i <= j < r.value ==> !OccursAt(s, m, j)
    ensures r.None? ==> forall j :: i <= j ==> !OccursAt(s, m, j)
    decreases |s| - i
  {
    if OccursAt(s, m, i) then Some(i)
    else if i == |s| then None
    else IndexFrom(s, m, i + 1)
  }

  function Index(s: string, m: string): Option<nat> { IndexFrom(s, m, 0) }

  // ----- parsePath

  datatype Kind = Unknown | UploadStart | Upload | Blob | Manifest | TagsList

  datatype Parsed = Parsed(name: string, kind: Kind, arg: string, ok: bool)

  function ParsePath(path: string): Parsed {
    var rest := TrimSuffix(path, "/");
    if HasSuffix(rest, TAGS_LIST) then
      var name := TrimSuffix(rest, TAGS_LIST);
      Parsed(name, TagsList, "", name != "")
    else if Index(rest, UPLOADS).Some? then
      var i := Index(rest, UPLOADS).value;
      var name, tail := rest[..i], TrimPrefix(rest[i + |UPLOADS|..], "/");
      if tail == "" then Parsed(name, UploadStart, "", name != "") else Parsed(name, Upload, tail, name != "")
    else if Index(rest, BLOBS).Some? then
      var i := Index(rest, BLOBS).value;
      var name, arg := rest[..i], rest[i + |BLOBS|..];
      Parsed(name, Blob, arg, name != "" && arg != "")
    else if Index(rest, MANIFESTS).Some? then
      var i := Index(rest, MANIFESTS).value;
      var name, arg := rest[..i], rest[i + |MANIFESTS|..];
      Parsed(name, Manifest, arg, name != "" && arg != "")
    else Parsed("", Unknown, "", false)
  }

  /** What ServeHTTP dispatches a path to: nothing outside /v2/, nothing for the
      base path, and otherwise what parsePath accepts. */
  function Served(path: string): Option<Parsed> {
    var rest := TrimPrefix(path, V2);
    if rest == path || rest == "" || rest == "/" then None
    else if !ParsePath(rest).ok then None
    else Some(ParsePath(rest))
  }

  // ----- Location headers

  function UploadLocation(repo: string, id: string): string { "/v2/" + repo + "/blobs/uploads/" + id }
  function BlobLocation(repo: string, digest: string): string { "/v2/" + repo + "/blobs/" + digest }
  function ManifestLocation(repo: string, digest: string): string { "/v2/" + repo + "/manifests/" + digest }

  lemma ServedAfterPrefix(rest: string)
    requires rest != "" && rest != "/"
    ensures Served(V2 + rest) == if ParsePath(rest).ok then Some(ParsePath(rest)) else None
  {
    assert (V2 + rest)[|V2|..] == rest;
    assert |V2 + rest| > |rest|;
  }

  // ----- where markers can lie

  /** One differing letter rules an occurrence out. */
  lemma NotAt(s: string, m: string, i: nat, k: nat)
    requires k < |m| && i + k < |s| && s[i + k] != m[k]
    ensures !OccursAt(s, m, i)
  {
    if i + |m| <= |s| {
      assert s[i..i + |m|][k] == s[i + k];
    }
  }

  /** An occurrence in a longer text that fits into the front lies in the front. */
  lemma InFront(front: string, back: string, m: string, i: nat)
    requires i + |m| <= |front|
    ensures OccursAt(front + back, m, i) <==> OccursAt(front, m, i)
  {
    assert (front + back)[i..i + |m|] == front[i..i + |m|];
  }

  /** Before its own place behind a name, the uploads marker occurs only inside
      the name: it cannot overlap itself. */
  lemma UploadsFirst(repo: string, tail: string)
    ensures var s := repo + UPLOADS + tail;
      if Contains(repo, UPLOADS) then Index(s, UPLOADS).Some? && Index(s, UPLOADS).value < |repo|
      else Index(s, UPLOADS) == Some(|repo|)
  {
    var s := repo + UPLOADS + tail;
    assert s == repo + (UPLOADS + tail);
    assert s[|repo|..|repo| + |UPLOADS|] == UPLOADS;
    assert OccursAt(s, UPLOADS, |repo|);
    if Contains(repo, UPLOADS) {
      var i: nat :| OccursAt(repo, UPLOADS, i);
      InFront(repo, UPLOADS + tail, UPLOADS, i);
    } else {
      forall i: nat | i < |repo| ensures !OccursAt(s, UPLOADS, i) {
        if i + |UPLOADS| <= |repo| {
          InFront(repo, UPLOADS + tail, UPLOADS, i);
        } else {
          var d := |repo| - i;
          assert forall k :: 0 <= k < |UPLOADS| ==> s[|repo| + k] == UPLOADS[k];
          if d == 6 {
            NotAt(s, UPLOADS, i, 7);
          } else {
            NotAt(s, UPLOADS, i, d);
          }
        }
      }
    }
  }

  /** "/tags/list" does not reach back into "/blobs/uploads/". */
  lemma TagsAfterUploads(repo: string, id: string)
    ensures HasSuffix(repo + UPLOADS + ("/" + id), TAGS_LIST) <==> HasSuffix("/" + id, TAGS_LIST)
  {
    var tail := "/" + id;
    var s := repo + UPLOADS + tail;
    assert |TAGS_LIST| == 10 && |UPLOADS| == 14;
    var p := |s| - 10;
    if |tail| >= 10 {
      assert s[p..] == tail[|tail| - 10..];
      assert s[p..|s|] == s[p..] && tail[|tail| - 10..|tail|] == tail[|tail| - 10..];
    } else {
      assert forall k :: 0 <= k < |UPLOADS| ==> s[|repo| + k] == UPLOADS[k];
      if p == |repo| + 6 {
        NotAt(s, TAGS_LIST, p, 1);
      } else {
        NotAt(s, TAGS_LIST, p, 0);
      }
    }
  }

  /** An upload Location, taken for a decoded path, parses back to the repository,
      the upload and its ID if and only if the name is non-empty and free of the
      uploads marker, the ID is non-empty, does not end in a slash, and does not
      read as a tag listing.  A slash-free ID always meets the last two. */
  lemma UploadParsesBack(repo: string, id: string)
    ensures Served(UploadLocation(repo, id)) == Some(Parsed(repo, Upload, id, true)) <==>
      && repo != "" && !Contains(repo, UPLOADS)
      && id != "" && !HasSuffix(id, "/") && !HasSuffix("/" + id, TAGS_LIST)
  {
    hide Contains, HasSuffix, ParsePath, Served;
    var path := repo + UPLOADS + ("/" + id);
    assert UploadLocation(repo, id) == V2 + path;
    assert path != "" && path != "/" by { assert |path| >= 14; }
    ServedAfterPrefix(path);
    if id == "" || HasSuffix(id, "/") {
      TrimmedUpload(repo, id);
    } else {
      UntrimmedUpload(repo, id);
    }
  }

  lemma UntrimmedUpload(repo: string, id: string)
    requires id != "" && !HasSuffix(id, "/")
    ensures ParsePath(repo + UPLOADS + ("/" + id)) == Parsed(repo, Upload, id, true) <==>
      repo != "" && !Contains(repo, UPLOADS) && !HasSuffix("/" + id, TAGS_LIST)
  {
    hide Index, Contains, HasSuffix, TrimSuffix;
    var tail := "/" + id;
    var path := repo + UPLOADS + tail;
    EndsInSlash(repo + UPLOADS, tail);
    NoSlashAtEnd(id);
    Untrimmed(path, "/");
    TagsAfterUploads(repo, id);
    UploadsFirst(repo, tail);
    assert path[|repo|..] == UPLOADS + tail && path[|repo| + |UPLOADS|..] == tail;
    assert TrimPrefix(tail, "/") == id;
    assert path[..|repo|] == repo;
  }

  lemma Untrimmed(s: string, m: string)
    requires !HasSuffix(s, m)
    ensures TrimSuffix(s, m) == s
  {
  }

  lemma EndsInSlash(front: string, back: string)
    ensures back != "" ==> (HasSuffix(front + back, "/") <==> HasSuffix(back, "/"))
  {
    var s := front + back;
    if back != "" {
      assert s[|s| - 1..|s|] == [s[|s| - 1]] && back[|back| - 1..|back|] == [back[|back| - 1]];
    }
  }

  lemma NoSlashAtEnd(id: string)
    requires id != ""
    ensures HasSuffix("/" + id, "/") <==> HasSuffix(id, "/")
  {
    EndsInSlash("/", id);
  }

  /** A trailing slash is cut off, so the ID cannot come back whole. */
  lemma TrimmedUpload(repo: string, id: string)
    requires id == "" || HasSuffix(id, "/")
    ensures ParsePath(repo + UPLOADS + ("/" + id)) != Parsed(repo, Upload, id, true)
  {
    hide Index, HasSuffix;
    var tail := "/" + id;
    var path := repo + UPLOADS + tail;
    SlashTail(id);
    EndsInSlash(repo + UPLOADS, tail);
    var rest := TrimSuffix(path, "/");
    assert rest == path[..|path| - 1] by { Trimmed(path, "/"); }
    var left := rest[|repo| + |UPLOADS|..];
    assert left == tail[..|tail| - 1];
    assert id != "" ==> left[0] == '/' && TrimPrefix(left, "/") == left[1..];
    IndexOccurs(rest, UPLOADS);
  }

  lemma SlashTail(id: string)
    requires id == "" || HasSuffix(id, "/")
    ensures HasSuffix("/" + id, "/")
  {
    EndsInSlash("/", id);
    if id == "" {
      assert "/" + id == "/";
    }
  }

  lemma Trimmed(s: string, m: string)
    requires HasSuffix(s, m)
    ensures TrimSuffix(s, m) == s[..|s| - |m|]
  {
  }

  lemma IndexOccurs(s: string, m: string)
    ensures Index(s, m).Some? ==> OccursAt(s, m, Index(s, m).value)
  {
  }

  // ----- blobs and manifests

  /** Slashes at both ends and none between. */
  ghost predicate Marker(m: string) {
    |m| >= 4 && m[0] == '/' && m[|m| - 1] == '/' && forall k :: 0 < k < |m| - 1 ==> m[k] != '/'
  }

  lemma Markers()
    ensures Marker(BLOBS) && Marker(MANIFESTS) && BLOBS[|BLOBS| - 3] != 'g' && MANIFESTS[|MANIFESTS| - 3] != 'g'
  {
  }

  /** Around a marker that joins a name and a slash-free digest, another marker
      occurs only in the name with one slash after it, or as that very marker. */
  lemma OnlyInName(repo: string, m: string, digest: string, w: string, i: nat)
    requires Marker(m) && Marker(w) && '/' !in digest
    ensures OccursAt(repo + m + digest, w, i) ==>
      (i + |w| <= |repo| + 1 && OccursAt(repo + "/", w, i)) || (i == |repo| && w == m)
  {
    var s := repo + m + digest;
    assert forall k :: 0 <= k < |m| ==> s[|repo| + k] == m[k];
    assert forall k :: 0 <= k < |digest| ==> s[|repo| + |m| + k] == digest[k];
    assert forall k :: |repo| < k < |s| && s[k] == '/' ==> k == |repo| + |m| - 1;
    if i + |w| > |s| {
    } else if i + |w| <= |repo| + 1 {
      assert s[i..i + |w|] == (repo + "/")[i..i + |w|];
    } else if i < |repo| {
      NotAt(s, w, i, |repo| - i);
    } else if i == |repo| {
      if |w| != |m| {
        NotAt(s, w, i, |w| - 1);
      } else {
        assert s[i..i + |w|] == m;
      }
    } else if i == |repo| + |m| - 1 {
      NotAt(s, w, i, |w| - 1);
    } else {
      NotAt(s, w, i, 0);
    }
  }

  /** "/tags/list" does not reach back into the marker. */
  lemma NoTagsAfter(repo: string, m: string, digest: string)
    requires Marker(m) && m[|m| - 3] != 'g' && digest != "" && '/' !in digest
    ensures !HasSuffix(repo + m + digest, TAGS_LIST) && !HasSuffix(repo + m + digest, "/")
  {
    var s := repo + m + digest;
    assert forall k :: 0 <= k < |m| ==> s[|repo| + k] == m[k];
    assert forall k :: 0 <= k < |digest| ==> s[|repo| + |m| + k] == digest[k];
    NotAt(s, "/", |s| - 1, 0);
    if |s| >= 10 {
      var p := |s| - 10;
      if |digest| > 4 {
        assert s[p + 5] == digest[|digest| - 5];
        NotAt(s, TAGS_LIST, p, 5);
      } else if |digest| == 4 {
        NotAt(s, TAGS_LIST, p, 3);
      } else {
        NotAt(s, TAGS_LIST, p, 9 - |digest|);
      }
    }
  }

  lemma UploadsIsBlobs(s: string, i: nat)
    ensures OccursAt(s, UPLOADS, i) ==> OccursAt(s, BLOBS, i)
    ensures OccursAt(s, UPLOADS, i) <==> OccursAt(s, BLOBS, i) && i + |UPLOADS| <= |s| && s[i + |BLOBS|..i + |UPLOADS|] == "uploads"
  {
    assert UPLOADS == BLOBS + "uploads";
    if i + |UPLOADS| <= |s| {
      assert s[i..i + |UPLOADS|] == s[i..i + |BLOBS|] + s[i + |BLOBS|..i + |UPLOADS|];
      assert UPLOADS[..|BLOBS|] == BLOBS && s[i..i + |UPLOADS|][..|BLOBS|] == s[i..i + |BLOBS|];
    }
  }

  /** Where the two blob markers are found in a blob path. */
  lemma BlobIndexes(repo: string, digest: string)
    requires digest != "" && '/' !in digest
    ensures var s := repo + BLOBS + digest;
      && Index(s, BLOBS).Some?
      && (Contains(repo + "/", BLOBS) ==> Index(s, BLOBS).value < |repo|)
      && (!Contains(repo + "/", BLOBS) ==> Index(s, BLOBS).value == |repo|)
      && (!Contains(repo + "/", BLOBS) ==> (Index(s, UPLOADS).Some? <==> "uploads" <= digest))
  {
    var s := repo + BLOBS + digest;
    Markers();
    assert s[|repo|..|repo| + |BLOBS|] == BLOBS && s[|repo| + |BLOBS|..] == digest;
    assert OccursAt(s, BLOBS, |repo|);
    if Contains(repo + "/", BLOBS) {
      var i: nat :| OccursAt(repo + "/", BLOBS, i);
      assert s == (repo + "/") + s[|repo| + 1..];
      InFront(repo + "/", s[|repo| + 1..], BLOBS, i);
    } else {
      forall i: nat ensures OccursAt(s, BLOBS, i) ==> i == |repo| {
        OnlyInName(repo, BLOBS, digest, BLOBS, i);
      }
      forall i: nat ensures OccursAt(s, UPLOADS, i) ==> OccursAt(s, BLOBS, i) {
        UploadsIsBlobs(s, i);
      }
      UploadsIsBlobs(s, |repo|);
      if |digest| >= 7 {
        assert s[|repo| + |BLOBS|..|repo| + |UPLOADS|] == digest[..7];
      }
    }
  }

  /** The blob Location of a slash-free digest, so taken, parses back to the same
      repository and digest if and only if the name is non-empty, neither contains the blob
      marker nor completes one with the slash that follows it, and the digest does
      not begin with "uploads". */
  lemma BlobParsesBack(repo: string, digest: string)
    requires digest != "" && '/' !in digest
    ensures Served(BlobLocation(repo, digest)) == Some(Parsed(repo, Blob, digest, true)) <==>
      repo != "" && !Contains(repo + "/", BLOBS) && !("uploads" <= digest)
  {
    hide Index, Contains, HasSuffix, TrimSuffix;
    var path := repo + BLOBS + digest;
    assert BlobLocation(repo, digest) == V2 + path;
    assert path != "" && path != "/" by { assert |path| >= 8; }
    ServedAfterPrefix(path);
    Markers();
    NoTagsAfter(repo, BLOBS, digest);
    Untrimmed(path, "/");
    BlobIndexes(repo, digest);
    assert path[..|repo|] == repo && path[|repo| + |BLOBS|..] == digest;
  }

  lemma ManifestIndexes(repo: string, digest: string)
    requires digest != "" && '/' !in digest
    ensures var s := repo + MANIFESTS + digest;
      && (Index(s, BLOBS).Some? <==> Contains(repo + "/", BLOBS))
      && (Index(s, UPLOADS).Some? ==> Contains(repo + "/", BLOBS))
      && Index(s, MANIFESTS).Some?
      && (Contains(repo + "/", MANIFESTS) ==> Index(s, MANIFESTS).value < |repo|)
      && (!Contains(repo + "/", MANIFESTS) ==> Index(s, MANIFESTS).value == |repo|)
  {
    var s := repo + MANIFESTS + digest;
    Markers();
    assert s[|repo|..|repo| + |MANIFESTS|] == MANIFESTS;
    assert OccursAt(s, MANIFESTS, |repo|);
    assert s == (repo + "/") + s[|repo| + 1..];
    forall i: nat ensures OccursAt(s, BLOBS, i) ==> OccursAt(repo + "/", BLOBS, i) {
      OnlyInName(repo, MANIFESTS, digest, BLOBS, i);
    }
    forall i: nat ensures OccursAt(s, UPLOADS, i) ==> OccursAt(s, BLOBS, i) {
      UploadsIsBlobs(s, i);
    }
    if Contains(repo + "/", BLOBS) {
      var i: nat :| OccursAt(repo + "/", BLOBS, i);
      InFront(repo + "/", s[|repo| + 1..], BLOBS, i);
    }
    if Contains(repo + "/", MANIFESTS) {
      var i: nat :| OccursAt(repo + "/", MANIFESTS, i);
      InFront(repo + "/", s[|repo| + 1..], MANIFESTS, i);
    } else {
      forall i: nat ensures OccursAt(s, MANIFESTS, i) ==> i == |repo| {
        OnlyInName(repo, MANIFESTS, digest, MANIFESTS, i);
      }
    }
  }

  /** The manifest Location likewise, with both markers kept out of the name. */
  lemma ManifestParsesBack(repo: string, digest: string)
    requires digest != "" && '/' !in digest
    ensures Served(ManifestLocation(repo, digest)) == Some(Parsed(repo, Manifest, digest, true)) <==>
      repo != "" && !Contains(repo + "/", BLOBS) && !Contains(repo + "/", MANIFESTS)
  {
    hide Index, Contains, HasSuffix, TrimSuffix;
    var path := repo + MANIFESTS + digest;
    assert ManifestLocation(repo, digest) == V2 + path;
    assert path != "" && path != "/" by { assert |path| >= 12; }
    ServedAfterPrefix(path);
    Markers();
    NoTagsAfter(repo, MANIFESTS, digest);
    Untrimmed(path, "/");
    ManifestIndexes(repo, digest);
    assert path[..|repo|] == repo && path[|repo| + |MANIFESTS|..] == digest;
  }

  /** A name that ends in "/blobs" holds no whole marker and still loses its blob
      Location: keeping the markers out of the name itself is not enough. */
  lemma NameEndingInBlobs()
    ensures !Contains("a/blobs", BLOBS)
    ensures Served(BlobLocation("a/blobs", "sha256:0")) != Some(Parsed("a/blobs", Blob, "sha256:0", true))
  {
    hide Index, ParsePath, Served;
    var name := "a/blobs";
    forall i: nat ensures !OccursAt(name, BLOBS, i) {
      if i == 0 {
        NotAt(name, BLOBS, i, 0);
      }
    }
    assert name + "/" == "a" + BLOBS;
    assert ("a" + BLOBS)[1..1 + |BLOBS|] == BLOBS;
    assert OccursAt(name + "/", BLOBS, 1);
    BlobParsesBack(name, "sha256:0");
  }

  // ----- tag listings and new uploads

  /** Whatever the name, a path that ends in the listing, with or without a slash
      behind it, asks for the tags of the name before it. */
  lemma TagsListServed(name: string)
    ensures var answer := if name == "" then None else Some(Parsed(name, TagsList, "", true));
      && Served("/v2/" + (name + "/tags/list")) == answer
      && Served("/v2/" + (name + "/tags/list" + "/")) == answer
  {
    hide ParsePath, Served, HasSuffix;
    var rest := name + TAGS_LIST;
    ServedAfterPrefix(rest);
    ServedAfterPrefix(rest + "/");
    TagsParse(name, rest);
    TagsParse(name, rest + "/");
  }

  lemma TagsParse(name: string, path: string)
    requires path == name + TAGS_LIST || path == name + TAGS_LIST + "/"
    ensures ParsePath(path) == Parsed(name, TagsList, "", name != "")
  {
    hide Index;
    var rest := name + TAGS_LIST;
    assert rest[|name|..|rest|] == TAGS_LIST && rest[..|name|] == name;
    if path == rest {
      NotAt(rest, "/", |rest| - 1, 0);
    } else {
      assert (rest + "/")[|rest|..|rest| + 1] == "/" && (rest + "/")[..|rest|] == rest;
    }
  }

  /** A path that ends in the uploads marker, with or without a slash behind it,
      begins an upload exactly when the name before it is a name free of the marker. */
  lemma UploadStartServed(name: string)
    ensures Served("/v2/" + (name + "/blobs/uploads")) == Some(Parsed(name, UploadStart, "", true))
      <==> name != "" && !Contains(name, UPLOADS)
    ensures Served("/v2/" + (name + "/blobs/uploads" + "/")) == Some(Parsed(name, UploadStart, "", true))
      <==> name != "" && !Contains(name, UPLOADS)
  {
    hide ParsePath, Served, HasSuffix, Contains;
    var rest := name + UPLOADS;
    ServedAfterPrefix(rest);
    ServedAfterPrefix(rest + "/");
    UploadStartParse(name, rest);
    UploadStartParse(name, rest + "/");
  }

  lemma UploadStartParse(name: string, path: string)
    requires path == name + UPLOADS || path == name + UPLOADS + "/"
    ensures ParsePath(path) == Parsed(name, UploadStart, "", true) <==> name != "" && !Contains(name, UPLOADS)
  {
    hide Index, Contains, HasSuffix, TrimSuffix;
    var rest := name + UPLOADS;
    assert rest == name + UPLOADS + "" && rest[..|name|] == name && rest[|name| + |UPLOADS|..] == "";
    NotTags(name);
    UploadsFirst(name, "");
    if path == rest {
      Untrimmed(rest, "/");
    } else {
      assert (rest + "/")[|rest|..|rest| + 1] == "/" && (rest + "/")[..|rest|] == rest;
      assert HasSuffix(path, "/") by { EndsInSlash(rest, "/"); OneSlash(); }
      Trimmed(path, "/");
    }
  }

  lemma OneSlash()
    ensures HasSuffix("/", "/")
  {
  }

  lemma NotTags(name: string)
    ensures !HasSuffix(name + UPLOADS, TAGS_LIST) && !HasSuffix(name + UPLOADS, "/")
  {
    var s := name + UPLOADS;
    assert s[|s| - 1] == 's';
    NotAt(s, "/", |s| - 1, 0);
    NotAt(s, TAGS_LIST, |s| - 10, 9);
  }

  /** Nothing is served outside /v2/, nor a path without any of the four markers. */
  lemma NothingElseServed(path: string)
    requires Served(path).Some?
    ensures |path| >= 4 && "/v2/" <= path && Served(path).value.kind != Unknown && Served(path).value.name != ""
    ensures var rest := TrimSuffix(path[4..], "/");
      HasSuffix(rest, "/tags/list") || Contains(rest, "/blobs/uploads") || Contains(rest, "/blobs/") || Contains(rest, "/manifests/")
  {
    hide TrimSuffix, HasSuffix, Index;
    var rest := TrimSuffix(TrimPrefix(path, V2), "/");
    IndexOccurs(rest, UPLOADS);
    IndexOccurs(rest, BLOBS);
    IndexOccurs(rest, MANIFESTS);
  }

  // ----- what a served path holds

  function MarkerOf(k: Kind): string {
    match k
    case Upload => UPLOADS
    case Blob => BLOBS
    case Manifest => MANIFESTS
    case _ => ""
  }

  /** Name, marker and argument are disjoint pieces of the path, a slash at its
      end aside. */
  lemma ServedHolds(path: string)
    requires Served(path).Some? && Served(path).value.kind in {Upload, Blob, Manifest}
    ensures var p := Served(path).value;
      && 4 + |p.name| + |MarkerOf(p.kind)| + |p.arg| <= |TrimSuffix(path, "/")|
      && (forall c :: c !in path ==> c !in p.name && c !in p.arg)
  {
    hide Index, TrimSuffix, HasSuffix;
    var r := TrimPrefix(path, V2);
    var rest := TrimSuffix(r, "/");
    assert path == V2 + r;
    TrimBehind(V2, r);
    TrimIsPrefix(r, "/");
    IndexOccurs(rest, UPLOADS);
    IndexOccurs(rest, BLOBS);
    IndexOccurs(rest, MANIFESTS);
  }

  lemma TrimIsPrefix(s: string, m: string)
    ensures TrimSuffix(s, m) <= s
  {
  }

  lemma TrimBehind(front: string, back: string)
    requires back != ""
    ensures TrimSuffix(front + back, "/") == front + TrimSuffix(back, "/")
  {
    hide HasSuffix;
    EndsInSlash(front, back);
    if HasSuffix(back, "/") {
      Trimmed(back, "/");
      assert (front + back)[..|front + back| - 1] == front + back[..|back| - 1];
    }
  }

  lemma SlashFree(id: string)
    requires id != "" && '/' !in id
    ensures !HasSuffix(id, "/") && !HasSuffix("/" + id, TAGS_LIST)
  {
    NotAt(id, "/", |id| - 1, 0);
    var s := "/" + id;
    if |s| >= 10 {
      NotAt(s, TAGS_LIST, |s| - 10, 5);
    }
  }
}
