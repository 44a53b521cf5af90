/**
  Request paths, routing keys and service keys
  (gateway/upstreamer/push/utils.go, gateway/upstreamer/push/ping.go).
*/
module Paths {
  import opened Wrappers

  // ---------------------------------------------------------------- the Go string functions in use

  predicate IsDigit(c: char) { '0' <= c <= '9' }

  predicate SlashFree(s: string) { '/' !in s }

  predicate StartsWith(s: string, p: string) { |p| <= |s| && s[..|p|] == p }

  function TrimPrefix(s: string, p: string): string {
    if StartsWith(s, p) then s[|p|..] else s
  }

  /** `strings.Split(s, "/")` */
  function Split(s: string): (parts: seq<string>)
    ensures |parts| > 0
  {
    if s == "" then [""]
    else
      var rest := Split(s[1..]);
      if s[0] == '/' then [""] + rest else [[s[0]] + rest[0]] + rest[1..]
  }

  function SkipDigits(s: string): (r: string)
    ensures |r| <= |s|
  {
    if s != "" && IsDigit(s[0]) then SkipDigits(s[1..]) else s
  }

  predicate VersionHere(s: string) {
    |s| > 3 && s[0] == '/' && s[1] == 'v' && s[2] == '/' && IsDigit(s[3])
  }

  /** Removes every leftmost-longest match of the expression `/v/\d+`. */
  function StripVersions(s: string): string
    decreases |s|
  {
    if VersionHere(s) then StripVersions(SkipDigits(s[3..]))
    else if s == "" then ""
    else [s[0]] + StripVersions(s[1..])
  }

  /** The length of `s` up to its first slash. */
  function FirstSlash(s: string): (n: nat)
    ensures n <= |s| && SlashFree(s[..n])
    ensures n < |s| ==> s[n] == '/'
  {
    if s == "" || s[0] == '/' then 0
    else
      var n := 1 + FirstSlash(s[1..]);
      assert s[..n] == [s[0]] + s[1..][..n - 1];
      n
  }

  // ---------------------------------------------------------------- the gateway's own functions

  datatype Target = Target(identity: string, prefix: string)

  /** `getTargetIdentity`; `None` is its index-out-of-range panic on an empty first part. */
  function GetTargetIdentity(path: string): Option<Target> {
    var parts := Split(TrimPrefix(StripVersions(path), "/"));
    if |parts| > 1 && parts[0] == "" then None
    else if |parts| > 1 && parts[0][0] == '_' then
      var rest := parts[1..];
      Some(Target(if |rest| <= 2 then rest[0] else rest[2], parts[0][1..]))
    else
      Some(Target(if |parts| <= 2 then parts[0] else parts[2], ""))
  }

  /** The key under which `Upstream` looks a request path up. */
  function RoutingKey(path: string): Option<string> {
    match GetTargetIdentity(path)
    case None => None
    case Some(t) => Some(t.prefix + "/" + t.identity)
  }

  /** The path a request goes on with. */
  function Rewritten(path: string): string {
    match GetTargetIdentity(path)
    case None => path
    case Some(t) => TrimPrefix(path, "/_" + t.prefix)
  }

  function IdentityOf(path: string): string {
    match GetTargetIdentity(path)
    case None => ""
    case Some(t) => t.identity
  }

  /** `servicePing.Key` */
  function ServiceKey(prefix: string, name: string): string {
    if prefix != "" then prefix + "/" + name else name
  }

  datatype NameAndPrefix = NameAndPrefix(name: string, prefix: string)

  /** `extractPrefix` */
  function ExtractPrefix(key: string): NameAndPrefix {
    var n := FirstSlash(key);
    if n < |key| then NameAndPrefix(key[n + 1..], key[..n]) else NameAndPrefix(key, "")
  }

  /** The service key that a tick hands back to the removal code for a service stored under `key`. */
  function TickKey(key: string): string {
    var e := ExtractPrefix(key);
    ServiceKey(e.prefix, e.name)
  }

  // ---------------------------------------------------------------- service keys

  /** Splitting a stored key and rebuilding it is the identity exactly on keys that do not start with a slash. */
  lemma KeyRoundTrip(key: string)
    ensures TickKey(key) == key <==> !StartsWith(key, "/")
    ensures StartsWith(key, "/") ==> TickKey(key) == key[1..]
  {
    var n := FirstSlash(key);
    if n < |key| {
      assert key == key[..n] + "/" + key[n + 1..];
    }
    if StartsWith(key, "/") {
      assert key[0] == key[..1][0] == '/';
    } else if key != "" {
      assert key[..1] == [key[0]];
    }
  }

  lemma {:induction false} FirstSlashOf(a: string, b: string)
    requires SlashFree(a)
    ensures FirstSlash(a + "/" + b) == |a|
  {
    if a != "" {
      assert (a + "/" + b)[1..] == a[1..] + "/" + b;
      assert forall c :: c in a[1..] ==> c in a;
      FirstSlashOf(a[1..], b);
    }
  }

  /**
    What a ping calls prefix and name comes back out of the key exactly when the prefix is slash-free
    and the key unambiguous.
  */
  lemma PrefixRoundTrip(prefix: string, name: string)
    ensures ExtractPrefix(ServiceKey(prefix, name)) == NameAndPrefix(name, prefix)
            <==> SlashFree(prefix) && (prefix != "" || SlashFree(name))
  {
    var key := ServiceKey(prefix, name);
    var n := FirstSlash(key);
    if prefix != "" && SlashFree(prefix) {
      FirstSlashOf(prefix, name);
      assert key[..n] == prefix && key[n + 1..] == name;
    } else if prefix != "" {
      assert n < |key| ==> SlashFree(key[..n]);
    } else if !SlashFree(name) {
      assert n < |name| by { assert name[..|name|] == name; }
      assert |name[n + 1..]| < |name|;
    } else {
      assert n == |name|;
    }
  }

  // ---------------------------------------------------------------- paths made of segments

  /** `/s0/s1/...` */
  function Path(segs: seq<string>): string {
    if segs == [] then "" else "/" + segs[0] + Path(segs[1..])
  }

  predicate AllSlashFree(segs: seq<string>) {
    forall i :: 0 <= i < |segs| ==> SlashFree(segs[i])
  }

  /** No segment `v` is followed by a segment that starts with a digit. */
  predicate Unversioned(segs: seq<string>) {
    forall i :: 0 <= i < |segs| - 1 && segs[i] == "v" ==> segs[i + 1] == "" || !IsDigit(segs[i + 1][0])
  }

  predicate EndsSegment(rest: string) { rest == "" || rest[0] == '/' }

  lemma PathEndsSegment(segs: seq<string>)
    ensures EndsSegment(Path(segs))
    ensures segs != [] ==> Path(segs) != ""
  {
  }

  lemma {:induction false} StripPlain(x: string, rest: string)
    requires SlashFree(x)
    ensures StripVersions(x + rest) == x + StripVersions(rest)
  {
    if x == "" {
      assert x + rest == rest;
    } else {
      assert x[0] != '/' && (x + rest)[1..] == x[1..] + rest;
      assert forall c :: c in x[1..] ==> c in x;
      StripPlain(x[1..], rest);
    }
  }

  lemma NoVersionHere(seg: string, rest: string)
    requires SlashFree(seg) && EndsSegment(rest)
    requires seg == "v" && |rest| > 1 ==> !IsDigit(rest[1])
    ensures !VersionHere("/" + seg + rest)
  {
    var s := "/" + seg + rest;
    if |seg| == 1 {
      assert s[1] == seg[0] && (|s| > 3 ==> s[3] == rest[1]);
      assert seg == [seg[0]];
    } else if |seg| > 1 {
      assert seg[1] == s[2] && seg[1] in seg;
    }
  }

  lemma {:induction false} StripStep(s: string, t: string)
    requires s == "/" + t && !VersionHere(s)
    ensures StripVersions(s) == "/" + StripVersions(t)
  {
    assert s[1..] == t;
  }

  lemma {:induction false} StripSegment(seg: string, rest: string)
    requires SlashFree(seg) && EndsSegment(rest)
    requires seg == "v" && |rest| > 1 ==> !IsDigit(rest[1])
    ensures StripVersions("/" + seg + rest) == "/" + seg + StripVersions(rest)
  {
    NoVersionHere(seg, rest);
    var t := seg + rest;
    assert "/" + seg + rest == "/" + t;
    StripStep("/" + t, t);
    StripPlain(seg, rest);
  }

  lemma {:induction false} StripPath(segs: seq<string>)
    requires AllSlashFree(segs) && Unversioned(segs)
    ensures StripVersions(Path(segs)) == Path(segs)
  {
    if segs != [] {
      PathEndsSegment(segs[1..]);
      StripPath(segs[1..]);
      StripSegment(segs[0], Path(segs[1..]));
    }
  }

  predicate AllDigits(s: string) { s != "" && forall c :: c in s ==> IsDigit(c) }

  lemma {:induction false} SkipAllDigits(digits: string, rest: string)
    requires forall c :: c in digits ==> IsDigit(c)
    requires EndsSegment(rest)
    ensures SkipDigits(digits + rest) == rest
  {
    if digits == "" {
      assert digits + rest == rest;
    } else {
      assert (digits + rest)[1..] == digits[1..] + rest;
      SkipAllDigits(digits[1..], rest);
    }
  }

  lemma {:induction false} StripVersionBlock(digits: string, rest: string)
    requires AllDigits(digits) && EndsSegment(rest)
    ensures StripVersions("/v/" + digits + rest) == StripVersions(rest)
  {
    var s := "/v/" + digits + rest;
    assert s[3..] == digits + rest;
    assert s[3] == digits[0];
    SkipAllDigits(digits, rest);
  }

  lemma {:induction false} SplitPlain(x: string, rest: string)
    requires SlashFree(x)
    ensures Split(x + rest) == [x + Split(rest)[0]] + Split(rest)[1..]
  {
    if x == "" {
      assert x + rest == rest;
      assert x + Split(rest)[0] == Split(rest)[0];
    } else {
      assert (x + rest)[1..] == x[1..] + rest;
      assert forall c :: c in x[1..] ==> c in x;
      SplitPlain(x[1..], rest);
      assert [x[0]] + (x[1..] + Split(rest)[0]) == x + Split(rest)[0];
    }
  }

  /** Splitting undoes joining. */
  lemma {:induction false} SplitPath(segs: seq<string>)
    requires segs != [] && AllSlashFree(segs)
    ensures Split(TrimPrefix(Path(segs), "/")) == segs
  {
    var rest := Path(segs[1..]);
    assert TrimPrefix(Path(segs), "/") == segs[0] + rest by {
      assert Path(segs) == "/" + (segs[0] + rest);
    }
    SplitPlain(segs[0], rest);
    assert segs[0] + "" == segs[0];
    if |segs| > 1 {
      SplitPath(segs[1..]);
      assert rest[0] == '/' && TrimPrefix(rest, "/") == rest[1..];
      assert segs == [segs[0]] + segs[1..];
    }
  }

  /** `getTargetIdentity` panics exactly on paths that, once versions are gone, start with two slashes. */
  lemma TargetIdentityPanicsExactlyWhen(path: string)
    ensures GetTargetIdentity(path).None? <==> StartsWith(StripVersions(path), "//")
  {
    var s := StripVersions(path);
    var t := TrimPrefix(s, "/");
    assert StartsWith(s, "//") <==> |s| >= 2 && s[0] == '/' && s[1] == '/' by {
      if |s| >= 2 { assert s[..2] == [s[0], s[1]]; }
    }
    assert StartsWith(s, "/") <==> |s| >= 1 && s[0] == '/' by {
      if |s| >= 1 { assert s[..1] == [s[0]]; }
    }
    assert |Split(t)| > 1 && Split(t)[0] == "" <==> t != "" && t[0] == '/';
  }

  /** For one: the path `//x`. */
  lemma DoubleSlashPanics()
    ensures GetTargetIdentity("//x").None?
  {
    var s := "//x";
    assert s[1..] == "/x" && s[1..][1..] == "x" && "x"[1..] == "";
    assert StripVersions("x") == ['x'] + StripVersions("");
    assert StripVersions("/x") == ['/'] + StripVersions("x");
    assert StripVersions(s) == ['/'] + StripVersions("/x") == s;
    assert s[..2] == "//";
    TargetIdentityPanicsExactlyWhen(s);
  }

  // ---------------------------------------------------------------- requests for the announced routes

  /** A request for one of the three URL shapes a service announces, with its `:id` filled in. */
  datatype Request =
    | Collection(category: string)
    | Item(category: string, id: string)
    | Children(parent: string, id: string, category: string)

  function Segments(r: Request): seq<string> {
    match r
    case Collection(c) => [c]
    case Item(c, id) => [c, id]
    case Children(p, id, c) => [p, id, c]
  }

  function VersionPart(version: Option<string>): string {
    match version
    case None => ""
    case Some(digits) => "/v/" + digits
  }

  function PrefixPart(prefix: string): string {
    if prefix == "" then "" else "/_" + prefix
  }

  function Url(prefix: string, version: Option<string>, r: Request): string {
    PrefixPart(prefix) + Unprefixed(version, r)
  }

  function Unprefixed(version: Option<string>, r: Request): string {
    VersionPart(version) + Path(Segments(r))
  }

  /**
    Segments are non-empty and slash-free, none reads as a version, and an
    unprefixed request does not start like a prefix.
  */
  predicate Routable(prefix: string, version: Option<string>, r: Request) {
    var segs := Segments(r);
    && AllSlashFree(segs)
    && (forall i :: 0 <= i < |segs| ==> segs[i] != "")
    && Unversioned(segs)
    && (prefix == "" ==> segs[0][0] != '_')
    && SlashFree(prefix)
    && (version.Some? ==> AllDigits(version.value))
  }

  lemma {:induction false} StripVersionPart(version: Option<string>, segs: seq<string>)
    requires AllSlashFree(segs) && Unversioned(segs)
    requires version.Some? ==> AllDigits(version.value)
    ensures StripVersions(VersionPart(version) + Path(segs)) == Path(segs)
    ensures EndsSegment(VersionPart(version) + Path(segs))
  {
    PathEndsSegment(segs);
    StripPath(segs);
    if version.Some? {
      StripVersionBlock(version.value, Path(segs));
    } else {
      assert VersionPart(version) + Path(segs) == Path(segs);
    }
  }

  lemma {:induction false} StripAfterPrefix(prefix: string, rest: string)
    requires SlashFree(prefix) && EndsSegment(rest)
    ensures StripVersions("/_" + prefix + rest) == "/_" + prefix + StripVersions(rest)
  {
    var seg := "_" + prefix;
    assert seg[0] == '_';
    assert "/_" + prefix == "/" + seg;
    StripSegment(seg, rest);
  }

  lemma {:induction false} StripUrl(prefix: string, version: Option<string>, r: Request)
    requires Routable(prefix, version, r)
    ensures StripVersions(Url(prefix, version, r)) == PrefixPart(prefix) + Path(Segments(r))
  {
    StripVersionPart(version, Segments(r));
    if prefix != "" {
      StripAfterPrefix(prefix, Unprefixed(version, r));
    } else {
      NothingBefore(Unprefixed(version, r));
      NothingBefore(Path(Segments(r)));
    }
  }

  lemma NothingBefore(s: string)
    ensures "" + s == s
  {
  }

  lemma {:induction false} PrefixIsSegment(prefix: string, segs: seq<string>)
    requires prefix != ""
    ensures PrefixPart(prefix) + Path(segs) == Path(["_" + prefix] + segs)
  {
    var all := ["_" + prefix] + segs;
    assert all[1..] == segs;
    assert "/_" + prefix == "/" + all[0];
  }

  /** A path that does not start like a prefix has none; its identity is its first segment, or its third. */
  lemma {:induction false} PlainTarget(path: string, segs: seq<string>)
    requires segs != [] && AllSlashFree(segs) && segs[0] != "" && segs[0][0] != '_'
    requires StripVersions(path) == Path(segs)
    ensures GetTargetIdentity(path) == Some(Target(if |segs| <= 2 then segs[0] else segs[2], ""))
  {
    SplitPath(segs);
  }

  /** A first segment `_p`, followed by others, is the prefix; the identity is counted after it. */
  lemma {:induction false} PrefixedTarget(path: string, prefix: string, segs: seq<string>)
    requires segs != [] && AllSlashFree(segs) && SlashFree(prefix)
    requires StripVersions(path) == Path(["_" + prefix] + segs)
    ensures GetTargetIdentity(path) == Some(Target(if |segs| <= 2 then segs[0] else segs[2], prefix))
  {
    var all := ["_" + prefix] + segs;
    SplitPath(all);
    assert all[1..] == segs && all[0][1..] == prefix;
  }

  /** Every request for an announced route asks for its category, under its prefix. */
  lemma {:induction false} RequestTarget(prefix: string, version: Option<string>, r: Request)
    requires Routable(prefix, version, r)
    ensures GetTargetIdentity(Url(prefix, version, r)) == Some(Target(r.category, prefix))
    ensures IdentityOf(Url(prefix, version, r)) == r.category
  {
    StripUrl(prefix, version, r);
    if prefix == "" {
      NothingBefore(Path(Segments(r)));
      PlainTarget(Url(prefix, version, r), Segments(r));
    } else {
      PrefixIsSegment(prefix, Segments(r));
      PrefixedTarget(Url(prefix, version, r), prefix, Segments(r));
    }
  }

  /** And is looked up under both. */
  lemma {:induction false} RequestKey(prefix: string, version: Option<string>, r: Request)
    requires Routable(prefix, version, r)
    ensures RoutingKey(Url(prefix, version, r)) == Some(prefix + "/" + r.category)
  {
    RequestTarget(prefix, version, r);
  }

  // ---------------------------------------------------------------- versions anywhere

  datatype Part = Segment(text: string) | Version(digits: string)

  function PathOf(parts: seq<Part>): string {
    if parts == [] then ""
    else (match parts[0] case Segment(s) => "/" + s case Version(d) => "/v/" + d) + PathOf(parts[1..])
  }

  function SegmentsOf(parts: seq<Part>): seq<string> {
    if parts == [] then []
    else (match parts[0] case Segment(s) => [s] case Version(_) => []) + SegmentsOf(parts[1..])
  }

  /** Segments are slash-free, versions are numbers, and no segment `v` is followed by one that starts with a digit. */
  predicate WellFormed(parts: seq<Part>) {
    && (forall i :: 0 <= i < |parts| ==> match parts[i]
                                         case Segment(s) => SlashFree(s)
                                         case Version(d) => AllDigits(d))
    && (forall i :: 0 <= i < |parts| - 1 && parts[i] == Segment("v") && parts[i + 1].Segment? ==>
          parts[i + 1].text == "" || !IsDigit(parts[i + 1].text[0]))
  }

  lemma {:induction false} PartsStart(parts: seq<Part>)
    ensures EndsSegment(PathOf(parts))
    ensures parts != [] && parts[0].Version? ==> |PathOf(parts)| > 1 && PathOf(parts)[1] == 'v'
    ensures parts != [] && parts[0].Segment? && parts[0].text != "" ==> PathOf(parts)[1] == parts[0].text[0]
    ensures parts != [] && parts[0] == Segment("") && |PathOf(parts)| > 1 ==> PathOf(parts)[1] == '/'
  {
    if parts != [] && parts[0] == Segment("") {
      PartsStart(parts[1..]);
    }
  }

  /** Every version goes, wherever it stands, and nothing else. */
  lemma {:induction false} EveryVersionGoes(parts: seq<Part>)
    requires WellFormed(parts)
    ensures StripVersions(PathOf(parts)) == Path(SegmentsOf(parts))
  {
    if parts != [] {
      var rest := parts[1..];
      assert WellFormed(rest) by {
        assert forall i :: 0 <= i < |rest| ==> rest[i] == parts[i + 1];
      }
      EveryVersionGoes(rest);
      PartsStart(rest);
      match parts[0]
      case Segment(s) =>
        SegmentStripped(parts, s);
      case Version(d) =>
        StripVersionBlock(d, PathOf(rest));
        assert [] + SegmentsOf(rest) == SegmentsOf(rest);
    }
  }

  lemma {:induction false} SegmentStripped(parts: seq<Part>, s: string)
    requires WellFormed(parts) && parts != [] && parts[0] == Segment(s)
    requires StripVersions(PathOf(parts[1..])) == Path(SegmentsOf(parts[1..]))
    ensures StripVersions(PathOf(parts)) == Path(SegmentsOf(parts))
  {
    var rest := parts[1..];
    PartsStart(rest);
    assert s == "v" && rest != [] ==> parts[1] == rest[0] && parts[0] == Segment("v");
    StripSegment(s, PathOf(rest));
    var segs := [s] + SegmentsOf(rest);
    assert segs[1..] == SegmentsOf(rest);
  }

  /** So with any versions anywhere, the identity is the first of the segments, or the third. */
  lemma TargetAmongVersions(parts: seq<Part>)
    requires WellFormed(parts) && SegmentsOf(parts) != [] && AllSlashFree(SegmentsOf(parts))
    requires SegmentsOf(parts)[0] != "" && SegmentsOf(parts)[0][0] != '_'
    ensures var segs := SegmentsOf(parts);
            GetTargetIdentity(PathOf(parts)) == Some(Target(if |segs| <= 2 then segs[0] else segs[2], ""))
  {
    EveryVersionGoes(parts);
    PlainTarget(PathOf(parts), SegmentsOf(parts));
  }

  // ---------------------------------------------------------------- the path a request goes on with

  lemma {:induction false} TrimStarted(p: string, rest: string)
    ensures TrimPrefix(p + rest, p) == rest
  {
  }

  lemma {:induction false} NoPrefixMarker(version: Option<string>, r: Request)
    requires Routable("", version, r)
    ensures !StartsWith(Unprefixed(version, r), "/_")
  {
    var segs, rest := Segments(r), Unprefixed(version, r);
    assert Path(segs) == "/" + (segs[0] + Path(segs[1..]));
    assert rest[1] == if version.None? then segs[0][0] else 'v';
    assert rest[..2][1] == rest[1] && "/_"[1] == '_';
  }

  /** Rewriting the request path removes the prefix and nothing else. */
  lemma {:induction false} RewriteRestoresPath(prefix: string, version: Option<string>, r: Request)
    requires Routable(prefix, version, r)
    ensures TrimPrefix(Url(prefix, version, r), "/_" + prefix) == Url("", version, r)
  {
    NothingBefore(Unprefixed(version, r));
    if prefix != "" {
      TrimStarted("/_" + prefix, Unprefixed(version, r));
    } else {
      assert "/_" + prefix == "/_";
      NoPrefixMarker(version, r);
    }
  }

  /** So every request for an announced route goes on with its unprefixed path. */
  lemma {:induction false} RewrittenIsUnprefixed(prefix: string, version: Option<string>, r: Request)
    requires Routable(prefix, version, r)
    ensures Rewritten(Url(prefix, version, r)) == Url("", version, r)
  {
    RequestTarget(prefix, version, r);
    RewriteRestoresPath(prefix, version, r);
  }
}
