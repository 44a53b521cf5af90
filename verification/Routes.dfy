/**
  The route table a server announces (meta.go). Maps are iterated in an
  arbitrary order, and the table is shown not to depend on it.
*/
module Routes {
  import opened Wrappers
  import opened Paths

  datatype RouteInfo = RouteInfo(identity: string, url: string, verbs: seq<string>, private: bool)

  datatype Identity = Identity(name: string, category: string, private: bool)

  /** For each operation, the names of the parents it is declared under. */
  datatype Relationship = Relationship(
    create: set<string>, retrieve: set<string>, update: set<string>, delete: set<string>, retrieveMany: set<string>)

  /** A model manager: its relationships, and the category of the identity of a given name. */
  datatype Model = Model(relationships: map<Identity, Relationship>, categories: map<string, string>)

  function CategoryOf(m: Model, name: string): string {
    if name in m.categories then m.categories[name] else ""
  }

  // ---------------------------------------------------------------- strings in byte order

  predicate Less(a: string, b: string) {
    b != "" && (a == "" || a[0] < b[0] || (a[0] == b[0] && Less(a[1..], b[1..])))
  }

  lemma {:induction false} LessIsTotal(a: string, b: string)
    ensures a == b || Less(a, b) || Less(b, a)
    ensures !(Less(a, b) && Less(b, a)) && !Less(a, a)
  {
    if a != "" && b != "" {
      LessIsTotal(a[1..], b[1..]);
      assert a == [a[0]] + a[1..] && b == [b[0]] + b[1..];
    }
    if a != "" { LessIsTotal(a[1..], a[1..]); }
  }

  lemma {:induction false} LessIsTransitive(a: string, b: string, c: string)
    requires Less(a, b) && Less(b, c)
    ensures Less(a, c)
  {
    if a != "" && a[0] == b[0] == c[0] {
      LessIsTransitive(a[1..], b[1..], c[1..]);
    }
  }

  /** Byte order: at the first difference the smaller character, or the end, comes first. */
  lemma {:induction false} LessIsByteOrder(a: string, b: string)
    ensures Less(a, b) <==>
            exists n :: 0 <= n <= |a| && n < |b| && a[..n] == b[..n] && (n == |a| || a[n] < b[n])
  {
    if Less(a, b) {
      if a == "" || a[0] < b[0] {
        assert a[..0] == b[..0];
      } else {
        LessIsByteOrder(a[1..], b[1..]);
        var n :| 0 <= n <= |a[1..]| && n < |b[1..]| && a[1..][..n] == b[1..][..n]
                 && (n == |a[1..]| || a[1..][n] < b[1..][n]);
        assert a[..n + 1] == [a[0]] + a[1..][..n] == b[..n + 1];
      }
    }
    if n :| 0 <= n <= |a| && n < |b| && a[..n] == b[..n] && (n == |a| || a[n] < b[n]) {
      if n > 0 {
        assert a[0] == a[..n][0] == b[..n][0] == b[0];
        assert a[1..][..n - 1] == a[..n][1..] == b[..n][1..] == b[1..][..n - 1];
        LessIsByteOrder(a[1..], b[1..]);
      }
    }
  }

  predicate Increasing(s: seq<string>) {
    forall i, j :: 0 <= i < j < |s| ==> Less(s[i], s[j])
  }

  /** There is one way to list a set of strings in increasing order. */
  lemma {:induction false} IncreasingIsUnique(s: seq<string>, t: seq<string>)
    requires Increasing(s) && Increasing(t)
    requires forall x :: x in s <==> x in t
    ensures s == t
  {
    assert s != [] ==> s[0] in t;
    assert t != [] ==> t[0] in s;
    if s != [] {
      FirstIsLeast(s, t[0]);
      FirstIsLeast(t, s[0]);
      LessIsTotal(s[0], t[0]);
      forall x ensures x in s[1..] <==> x in t[1..] {
        InTail(s, x);
        InTail(t, x);
      }
      IncreasingIsUnique(s[1..], t[1..]);
      assert s == [s[0]] + s[1..] && t == [t[0]] + t[1..];
    }
  }

  lemma FirstIsLeast(s: seq<string>, x: string)
    requires Increasing(s) && x in s
    ensures x == s[0] || Less(s[0], x)
  {
  }

  lemma InTail(s: seq<string>, x: string)
    requires s != [] && Increasing(s)
    ensures x in s[1..] <==> x in s && x != s[0]
  {
    LessIsTotal(s[0], s[0]);
    assert s == [s[0]] + s[1..];
    assert forall i :: 0 <= i < |s[1..]| ==> s[1..][i] == s[i + 1];
  }

  // ---------------------------------------------------------------- sorting

  function KeysOf<T(!new)>(s: seq<T>, key: T -> string): (ks: seq<string>)
    ensures |ks| == |s| && forall i :: 0 <= i < |s| ==> ks[i] == key(s[i])
  {
    seq(|s|, i requires 0 <= i < |s| => key(s[i]))
  }

  function Insert<T(!new)>(x: T, s: seq<T>, key: T -> string): seq<T> {
    if s == [] || Less(key(x), key(s[0])) then [x] + s else [s[0]] + Insert(x, s[1..], key)
  }

  /** `sort.Strings` and `sort.Slice` on elements with distinct keys. */
  function Sort<T(!new)>(s: seq<T>, key: T -> string): seq<T> {
    if s == [] then [] else Insert(s[|s| - 1], Sort(s[..|s| - 1], key), key)
  }

  predicate DistinctKeys<T(!new)>(s: seq<T>, key: T -> string) {
    forall i, j :: 0 <= i < j < |s| ==> key(s[i]) != key(s[j])
  }

  lemma {:induction false} InsertKeepsElements<T(!new)>(x: T, s: seq<T>, key: T -> string)
    ensures forall y :: y in Insert(x, s, key) <==> y == x || y in s
  {
    if s != [] && !Less(key(x), key(s[0])) {
      InsertKeepsElements(x, s[1..], key);
      assert s == [s[0]] + s[1..];
    }
  }

  lemma {:induction false} InsertKeepsOrder<T(!new)>(x: T, s: seq<T>, key: T -> string)
    requires Increasing(KeysOf(s, key))
    requires forall y :: y in s ==> key(y) != key(x)
    ensures Increasing(KeysOf(Insert(x, s, key), key))
  {
    var r := Insert(x, s, key);
    if s == [] {
    } else if Less(key(x), key(s[0])) {
      forall i | 0 <= i < |s| ensures Less(key(x), key(s[i])) {
        if i > 0 {
          assert Less(KeysOf(s, key)[0], KeysOf(s, key)[i]);
          LessIsTransitive(key(x), key(s[0]), key(s[i]));
        }
      }
    } else {
      var tail := s[1..];
      assert forall i :: 0 <= i < |tail| ==> tail[i] == s[i + 1] && KeysOf(tail, key)[i] == KeysOf(s, key)[i + 1];
      InsertKeepsOrder(x, tail, key);
      InsertKeepsElements(x, tail, key);
      assert s[0] in s;
      LessIsTotal(key(x), key(s[0]));
      var rest := Insert(x, tail, key);
      forall i | 0 <= i < |rest| ensures Less(key(s[0]), key(rest[i])) {
        var y := rest[i];
        assert y in rest;
        assert y == x || y in tail;
        if y in tail {
          var j :| 0 <= j < |tail| && tail[j] == y;
          assert Less(KeysOf(s, key)[0], KeysOf(s, key)[j + 1]);
        } else {
          assert key(x) != key(s[0]);
        }
      }
      assert r == [s[0]] + rest;
      assert forall i :: 0 < i < |r| ==> KeysOf(r, key)[i] == KeysOf(rest, key)[i - 1];
    }
  }

  lemma {:induction false} SortSorts<T(!new)>(s: seq<T>, key: T -> string)
    requires DistinctKeys(s, key)
    ensures Increasing(KeysOf(Sort(s, key), key))
    ensures forall y :: y in Sort(s, key) <==> y in s
  {
    if s != [] {
      var n := |s| - 1;
      SortSorts(s[..n], key);
      InsertKeepsElements(s[n], Sort(s[..n], key), key);
      assert s == s[..n] + [s[n]];
      forall y | y in s[..n] ensures key(y) != key(s[n]) {
        var j :| 0 <= j < n && s[..n][j] == y;
        assert s[j] == y;
      }
      assert forall y :: y in Sort(s[..n], key) ==> y in s[..n];
      InsertKeepsOrder(s[n], Sort(s[..n], key), key);
    }
  }

  // ---------------------------------------------------------------- what an identity contributes

  datatype Contribution = Contribution(url: string, verb: string, identity: Identity)

  function CollectionUrl(id: Identity): string { "/" + id.category }

  function ItemUrl(id: Identity): string { "/" + id.category + "/:id" }

  function ChildUrl(m: Model, parent: string, id: Identity): string {
    if parent == "root" then CollectionUrl(id) else "/" + CategoryOf(m, parent) + "/:id/" + id.category
  }

  function When(b: bool, c: Contribution): set<Contribution> { if b then {c} else {} }

  function Listed(m: Model, id: Identity, parents: set<string>, verb: string): set<Contribution> {
    set p | p in parents :: Contribution(ChildUrl(m, p, id), verb, id)
  }

  function Own(m: Model, id: Identity): set<Contribution>
    requires id in m.relationships
  {
    var r := m.relationships[id];
    When(r.create != {}, Contribution(CollectionUrl(id), "POST", id))
    + When(r.retrieve != {}, Contribution(ItemUrl(id), "GET", id))
    + When(r.delete != {}, Contribution(ItemUrl(id), "DELETE", id))
    + When(r.update != {}, Contribution(ItemUrl(id), "PUT", id))
    + Listed(m, id, r.retrieveMany, "GET")
    + Listed(m, id, r.create, "POST")
  }

  /** Everything the identities that have a processor contribute. */
  function Contributions(m: Model, processors: set<Identity>): set<Contribution> {
    set id, c | id in m.relationships && id in processors && c in Own(m, id) :: c
  }

  // ---------------------------------------------------------------- the promised table

  function UrlOf(e: RouteInfo): string { e.url }

  function Urls(r: seq<RouteInfo>): seq<string> { KeysOf(r, UrlOf) }

  ghost predicate Has(cs: set<Contribution>, url: string, verb: string) {
    exists c :: c in cs && c.url == url && c.verb == verb
  }

  ghost predicate HasUrl(cs: set<Contribution>, url: string) {
    exists c :: c in cs && c.url == url
  }

  ghost predicate HasIdentity(cs: set<Contribution>, url: string, category: string, private: bool) {
    exists c :: c in cs && c.url == url && c.identity.category == category && c.identity.private == private
  }

  /**
    `r` announces `cs`: increasing URLs, each with exactly its verbs in order, and with the identity
    of a contributor.
  */
  ghost predicate IsTable(cs: set<Contribution>, r: seq<RouteInfo>) {
    && Increasing(Urls(r))
    && (forall url :: url in Urls(r) <==> HasUrl(cs, url))
    && forall i :: 0 <= i < |r| ==> IsEntry(cs, r[i])
  }

  ghost predicate IsEntry(cs: set<Contribution>, e: RouteInfo) {
    && Increasing(e.verbs)
    && (forall v :: v in e.verbs <==> Has(cs, e.url, v))
    && HasIdentity(cs, e.url, e.identity, e.private)
  }

  /** Contributors to one URL have the same category and the same privacy. */
  ghost predicate Coherent(cs: set<Contribution>) {
    forall c, d :: c in cs && d in cs && c.url == d.url ==>
      c.identity.category == d.identity.category && c.identity.private == d.identity.private
  }

  /** Two entries for one URL are equal. */
  lemma EntryIsUnique(cs: set<Contribution>, e: RouteInfo, f: RouteInfo)
    requires Coherent(cs) && IsEntry(cs, e) && IsEntry(cs, f) && e.url == f.url
    ensures e == f
  {
    IncreasingIsUnique(e.verbs, f.verbs);
  }

  /** A coherent model has one table, whatever order the maps were walked in. */
  lemma TableIsUnique(cs: set<Contribution>, r: seq<RouteInfo>, s: seq<RouteInfo>)
    requires Coherent(cs) && IsTable(cs, r) && IsTable(cs, s)
    ensures r == s
  {
    IncreasingIsUnique(Urls(r), Urls(s));
    forall i | 0 <= i < |r| ensures r[i] == s[i] {
      assert Urls(r)[i] == Urls(s)[i];
      EntryIsUnique(cs, r[i], s[i]);
    }
  }

  // ---------------------------------------------------------------- which models are coherent

  /** The shapes of the URLs contributed for a category; the parent of the last may be anything. */
  ghost predicate UrlFor(url: string, category: string) {
    || url == "/" + category
    || url == "/" + category + "/:id"
    || exists parent: string :: url == "/" + parent + "/:id/" + category
  }

  lemma EndsInSlash(a: string, x: string)
    requires SlashFree(x)
    ensures var s := a + "/" + x; s[|s| - 1] == '/' <==> x == ""
  {
    if x != "" { assert (a + "/" + x)[|a + "/" + x| - 1] == x[|x| - 1] && x[|x| - 1] in x; }
  }

  lemma {:induction false} LastSlash(a: string, b: string, x: string, y: string)
    requires SlashFree(x) && SlashFree(y) && a + "/" + x == b + "/" + y
    ensures a == b && x == y
  {
    EndsInSlash(a, x);
    EndsInSlash(b, y);
    if x == "" {
      assert a == (a + "/" + x)[..|a|] && b == (b + "/" + y)[..|b|];
    } else {
      var u, v := x[..|x| - 1], y[..|y| - 1];
      assert (a + "/" + x)[..|a + "/" + x| - 1] == a + "/" + u;
      assert (b + "/" + y)[..|b + "/" + y| - 1] == b + "/" + v;
      assert (a + "/" + x)[|a + "/" + x| - 1] == x[|x| - 1];
      assert (b + "/" + y)[|b + "/" + y| - 1] == y[|y| - 1];
      LastSlash(a, b, u, v);
      assert x == u + [x[|x| - 1]] && y == v + [y[|y| - 1]];
    }
  }

  datatype Cut = Cut(head: string, last: string)

  /** Where the last slash of a contributed URL falls: nothing before it, a category, or a parent's item. */
  lemma CutUrl(url: string, category: string) returns (c: Cut)
    requires SlashFree(category) && UrlFor(url, category)
    ensures url == c.head + "/" + c.last && SlashFree(c.last)
    ensures || (c.head == "" && c.last == category)
            || (c.head == "/" + category && c.last == ":id")
            || (c.last == category && exists parent: string :: c.head == "/" + (parent + "/:id"))
  {
    if url == "/" + category {
      c := Cut("", category);
    } else if url == "/" + category + "/:id" {
      c := Cut("/" + category, ":id");
      assert url == c.head + "/" + c.last;
    } else {
      var parent: string :| url == "/" + parent + "/:id/" + category;
      c := Cut("/" + (parent + "/:id"), category);
      assert url == c.head + "/" + c.last;
    }
  }

  lemma UrlDeterminesCategory(url: string, a: string, b: string)
    requires SlashFree(a) && SlashFree(b) && UrlFor(url, a) && UrlFor(url, b)
    ensures a == b
  {
    var c := CutUrl(url, a);
    var d := CutUrl(url, b);
    LastSlash(c.head, d.head, c.last, d.last);
    ItemHead(a, c.head);
    ItemHead(b, c.head);
  }

  /** The head of an item URL is not the head of a child URL. */
  lemma ItemHead(category: string, head: string)
    requires SlashFree(category)
    ensures head == "/" + category ==> head[1..] == category
    ensures head == "/" + category ==> forall parent: string :: head != "/" + (parent + "/:id")
  {
    forall parent: string ensures category != parent + "/:id" {
      assert (parent + "/:id")[|parent|] == '/';
    }
    forall parent: string | head == "/" + category ensures head != "/" + (parent + "/:id") {
      assert ("/" + (parent + "/:id"))[1..] == parent + "/:id";
    }
  }

  lemma ChildUrlFits(m: Model, parent: string, id: Identity)
    ensures UrlFor(ChildUrl(m, parent, id), id.category)
  {
    if parent != "root" {
      var p := CategoryOf(m, parent);
      assert ChildUrl(m, parent, id) == "/" + p + "/:id/" + id.category;
    }
  }

  lemma OwnUrls(m: Model, id: Identity, c: Contribution)
    requires id in m.relationships && c in Own(m, id)
    ensures c.identity == id && UrlFor(c.url, id.category)
  {
    var r := m.relationships[id];
    if c in Listed(m, id, r.retrieveMany, "GET") + Listed(m, id, r.create, "POST") {
      var p :| c.url == ChildUrl(m, p, id);
      ChildUrlFits(m, p, id);
    }
  }

  /** Categories are slash-free, and identities that share one agree on privacy; distinct categories always do. */
  ghost predicate WellNamed(m: Model, processors: set<Identity>) {
    && (forall id :: id in m.relationships && id in processors ==> SlashFree(id.category))
    && (forall id, other |
          id in m.relationships && id in processors && other in m.relationships && other in processors ::
          id.category == other.category ==> id.private == other.private)
  }

  lemma WellNamedIsCoherent(m: Model, processors: set<Identity>)
    requires WellNamed(m, processors)
    ensures Coherent(Contributions(m, processors))
  {
    var cs := Contributions(m, processors);
    forall c, d | c in cs && d in cs && c.url == d.url
      ensures c.identity.category == d.identity.category && c.identity.private == d.identity.private
    {
      var i :| i in m.relationships && i in processors && c in Own(m, i);
      var j :| j in m.relationships && j in processors && d in Own(m, j);
      OwnUrls(m, i, c);
      OwnUrls(m, j, d);
      UrlDeterminesCategory(c.url, i.category, j.category);
    }
  }

  // ---------------------------------------------------------------- what one order of the identities builds

  datatype RouteBuilder = RouteBuilder(verbs: set<string>, category: string, private: bool)

  function UrlsIn(own: set<Contribution>): set<string> { set c | c in own :: c.url }

  function VerbsIn(own: set<Contribution>, url: string): set<string> { set c | c in own && c.url == url :: c.verb }

  /** The builders once an identity has made its contributions: a URL keeps the identity that came first. */
  function AddOwn(routes: map<string, RouteBuilder>, id: Identity, own: set<Contribution>): map<string, RouteBuilder> {
    map url | url in routes.Keys + UrlsIn(own) ::
      if url in routes then routes[url].(verbs := routes[url].verbs + VerbsIn(own, url))
      else RouteBuilder(VerbsIn(own, url), id.category, id.private)
  }

  predicate Known(m: Model, order: seq<Identity>) {
    forall i :: 0 <= i < |order| ==> order[i] in m.relationships
  }

  /** The builders when the identities come in the given order. */
  function Builders(m: Model, order: seq<Identity>): map<string, RouteBuilder>
    requires Known(m, order)
  {
    if order == [] then map[]
    else
      var n := |order| - 1;
      AddOwn(Builders(m, order[..n]), order[n], Own(m, order[n]))
  }

  predicate Distinct(order: seq<Identity>) {
    forall i, j :: 0 <= i < j < |order| ==> order[i] != order[j]
  }

  /** An order in which the identities that have a processor can come. */
  predicate IsOrder(m: Model, processors: set<Identity>, order: seq<Identity>) {
    Known(m, order) && Distinct(order) && ElementsOf(order) == m.relationships.Keys * processors
  }

  lemma VerbsOfBoth(a: set<Contribution>, b: set<Contribution>, url: string)
    ensures VerbsIn(a + b, url) == VerbsIn(a, url) + VerbsIn(b, url)
    ensures url in UrlsIn(a + b) <==> url in UrlsIn(a) || url in UrlsIn(b)
    ensures url !in UrlsIn(a) ==> VerbsIn(a, url) == {}
  {
    if url !in UrlsIn(a) { NoVerbs(a, url); }
    if c :| c in a + b && c.url == url { assert c in a || c in b; }
    if c :| c in a && c.url == url { assert c in a + b; }
    if c :| c in b && c.url == url { assert c in a + b; }
  }

  lemma AddOwnTwiceAt(routes: map<string, RouteBuilder>, id: Identity, a: set<Contribution>, b: set<Contribution>,
                      url: string)
    ensures var once, twice := AddOwn(routes, id, a + b), AddOwn(AddOwn(routes, id, a), id, b);
            (url in once <==> url in twice) && (url in once ==> once[url] == twice[url])
  {
    VerbsOfBoth(a, b, url);
    if url in routes {
      var v := routes[url].verbs;
      assert v + (VerbsIn(a, url) + VerbsIn(b, url)) == v + VerbsIn(a, url) + VerbsIn(b, url);
    } else {
      assert {} + VerbsIn(b, url) == VerbsIn(b, url);
    }
  }

  lemma AddOwnTwice(routes: map<string, RouteBuilder>, id: Identity, a: set<Contribution>, b: set<Contribution>)
    ensures AddOwn(AddOwn(routes, id, a), id, b) == AddOwn(routes, id, a + b)
  {
    forall url { AddOwnTwiceAt(routes, id, a, b, url); }
    assert AddOwn(AddOwn(routes, id, a), id, b).Keys == AddOwn(routes, id, a + b).Keys;
  }

  lemma NoVerbs(own: set<Contribution>, url: string)
    requires url !in UrlsIn(own)
    ensures VerbsIn(own, url) == {}
  {
    assert forall c :: c in own ==> c.url in UrlsIn(own);
  }

  lemma AddNothing(routes: map<string, RouteBuilder>, id: Identity)
    ensures AddOwn(routes, id, {}) == routes
  {
    var same := AddOwn(routes, id, {});
    assert UrlsIn({}) == {};
    forall url | url in routes ensures same[url] == routes[url] {
      assert VerbsIn({}, url) == {};
    }
  }

  // ---------------------------------------------------------------- every order announces the contributions

  /** The builders account for the contributions. */
  ghost predicate BuiltFrom(routes: map<string, RouteBuilder>, cs: set<Contribution>) {
    && (forall url :: url in routes <==> HasUrl(cs, url))
    && (forall url, v :: url in routes ==> (v in routes[url].verbs <==> Has(cs, url, v)))
    && (forall url :: url in routes ==> HasIdentity(cs, url, routes[url].category, routes[url].private))
  }

  lemma VerbsAreHad(own: set<Contribution>, url: string, v: string)
    ensures v in VerbsIn(own, url) <==> Has(own, url, v)
    ensures url in UrlsIn(own) <==> HasUrl(own, url)
  {
  }

  lemma HasEither(a: set<Contribution>, b: set<Contribution>, url: string, v: string)
    ensures Has(a + b, url, v) <==> Has(a, url, v) || Has(b, url, v)
    ensures HasUrl(a + b, url) <==> HasUrl(a, url) || HasUrl(b, url)
  {
    if c :| c in a && c.url == url && c.verb == v { assert c in a + b; }
    if c :| c in b && c.url == url && c.verb == v { assert c in a + b; }
    if c :| c in a && c.url == url { assert c in a + b; }
    if c :| c in b && c.url == url { assert c in a + b; }
  }

  lemma IdentityStays(a: set<Contribution>, b: set<Contribution>, url: string, category: string, private: bool)
    requires HasIdentity(a, url, category, private) || HasIdentity(b, url, category, private)
    ensures HasIdentity(a + b, url, category, private)
  {
    if c :| c in a && c.url == url && c.identity.category == category && c.identity.private == private {
      assert c in a + b;
    } else {
      var c :| c in b && c.url == url && c.identity.category == category && c.identity.private == private;
      assert c in a + b;
    }
  }

  lemma SeenMore(routes: map<string, RouteBuilder>, seen: set<Contribution>, id: Identity, own: set<Contribution>)
    requires BuiltFrom(routes, seen) && forall c :: c in own ==> c.identity == id
    ensures BuiltFrom(AddOwn(routes, id, own), seen + own)
  {
    var r := AddOwn(routes, id, own);
    forall url, v
      ensures url in r <==> HasUrl(seen + own, url)
      ensures url in r ==> (v in r[url].verbs <==> Has(seen + own, url, v))
    {
      HasEither(seen, own, url, v);
      VerbsAreHad(own, url, v);
      assert Has(seen, url, v) ==> HasUrl(seen, url);
    }
    forall url | url in r ensures HasIdentity(seen + own, url, r[url].category, r[url].private) {
      if url !in routes {
        var c :| c in own && c.url == url;
        assert HasIdentity(own, url, id.category, id.private);
      }
      IdentityStays(seen, own, url, r[url].category, r[url].private);
    }
  }

  /** Everything the identities of an order contribute. */
  function OwnOf(m: Model, order: seq<Identity>): set<Contribution>
    requires Known(m, order)
  {
    if order == [] then {} else OwnOf(m, order[..|order| - 1]) + Own(m, order[|order| - 1])
  }

  lemma {:induction false} BuildersAreBuilt(m: Model, order: seq<Identity>)
    requires Known(m, order)
    ensures BuiltFrom(Builders(m, order), OwnOf(m, order))
  {
    if order != [] {
      var n := |order| - 1;
      BuildersAreBuilt(m, order[..n]);
      forall c | c in Own(m, order[n]) ensures c.identity == order[n] {
        OwnUrls(m, order[n], c);
      }
      SeenMore(Builders(m, order[..n]), OwnOf(m, order[..n]), order[n], Own(m, order[n]));
    }
  }

  lemma {:induction false} OwnOfMembers(m: Model, order: seq<Identity>, c: Contribution)
    requires Known(m, order)
    ensures c in OwnOf(m, order) <==> exists i :: 0 <= i < |order| && c in Own(m, order[i])
  {
    if order != [] {
      var n := |order| - 1;
      OwnOfMembers(m, order[..n], c);
      if c in OwnOf(m, order[..n]) {
        var i :| 0 <= i < n && c in Own(m, order[..n][i]);
        assert order[..n][i] == order[i];
      }
      if i :| 0 <= i < |order| && c in Own(m, order[i]) {
        assert i < n ==> order[..n][i] == order[i];
      }
    }
  }

  lemma OrderContributes(m: Model, processors: set<Identity>, order: seq<Identity>)
    requires IsOrder(m, processors, order)
    ensures OwnOf(m, order) == Contributions(m, processors)
  {
    forall c ensures c in OwnOf(m, order) <==> c in Contributions(m, processors) {
      OwnOfMembers(m, order, c);
      if i :| 0 <= i < |order| && c in Own(m, order[i]) {
        assert order[i] in ElementsOf(order);
      }
      if id :| id in m.relationships && id in processors && c in Own(m, id) {
        assert id in ElementsOf(order);
        var i :| 0 <= i < |order| && order[i] == id;
      }
    }
  }

  // ---------------------------------------------------------------- from builders to a table

  ghost predicate ShowsEntry(routes: map<string, RouteBuilder>, e: RouteInfo) {
    && e.url in routes && Increasing(e.verbs) && (forall v :: v in e.verbs <==> v in routes[e.url].verbs)
    && e.identity == routes[e.url].category && e.private == routes[e.url].private
  }

  /** The table of a set of builders: their URLs, increasing, each as its builder has it. */
  ghost predicate Shows(routes: map<string, RouteBuilder>, table: seq<RouteInfo>) {
    && Increasing(Urls(table))
    && (forall url :: url in Urls(table) <==> url in routes)
    && forall i :: 0 <= i < |table| ==> ShowsEntry(routes, table[i])
  }

  lemma ShownIsTable(routes: map<string, RouteBuilder>, table: seq<RouteInfo>, cs: set<Contribution>)
    requires Shows(routes, table) && BuiltFrom(routes, cs)
    ensures IsTable(cs, table)
  {
    forall i | 0 <= i < |table| ensures IsEntry(cs, table[i]) {
      assert ShowsEntry(routes, table[i]);
    }
  }

  /** One order has one table. */
  lemma ShownIsUnique(routes: map<string, RouteBuilder>, s: seq<RouteInfo>, t: seq<RouteInfo>)
    requires Shows(routes, s) && Shows(routes, t)
    ensures s == t
  {
    IncreasingIsUnique(Urls(s), Urls(t));
    forall i | 0 <= i < |s| ensures s[i] == t[i] {
      assert Urls(s)[i] == Urls(t)[i] && ShowsEntry(routes, s[i]) && ShowsEntry(routes, t[i]);
      IncreasingIsUnique(s[i].verbs, t[i].verbs);
    }
  }

  lemma {:induction false} VerbsExist(verbs: set<string>) returns (flat: seq<string>)
    ensures Increasing(flat) && forall v :: v in flat <==> v in verbs
  {
    flat := [];
    if verbs != {} {
      var v :| v in verbs;
      var rest := VerbsExist(verbs - {v});
      assert KeysOf(rest, Self) == rest;
      InsertKeepsOrder(v, rest, Self);
      InsertKeepsElements(v, rest, Self);
      flat := Insert(v, rest, Self);
      assert KeysOf(flat, Self) == flat;
    }
  }

  lemma {:induction false} TableExists(routes: map<string, RouteBuilder>) returns (table: seq<RouteInfo>)
    ensures Shows(routes, table)
    decreases |routes.Keys|
  {
    table := [];
    if routes.Keys != {} {
      var url :| url in routes.Keys;
      var fewer := routes - {url};
      assert fewer.Keys == routes.Keys - {url};
      var rest := TableExists(fewer);
      var flat := VerbsExist(routes[url].verbs);
      var e := RouteInfo(routes[url].category, url, flat, routes[url].private);
      table := EntryInserted(routes, fewer, rest, e);
    }
  }

  lemma EntryInserted(routes: map<string, RouteBuilder>, fewer: map<string, RouteBuilder>, rest: seq<RouteInfo>,
                      e: RouteInfo)
    returns (table: seq<RouteInfo>)
    requires Shows(fewer, rest) && ShowsEntry(routes, e) && fewer == routes - {e.url}
    ensures Shows(routes, table)
  {
    table := Insert(e, rest, UrlOf);
    forall f | f in rest ensures ShowsEntry(routes, f) && f.url != e.url {
      var i :| 0 <= i < |rest| && rest[i] == f;
      assert ShowsEntry(fewer, rest[i]);
    }
    InsertKeepsOrder(e, rest, UrlOf);
    InsertKeepsElements(e, rest, UrlOf);
    forall i | 0 <= i < |table| ensures ShowsEntry(routes, table[i]) {
      assert table[i] in table;
    }
    forall url ensures url in Urls(table) <==> url in routes {
      UrlOfElement(table, url);
      UrlOfElement(rest, url);
    }
  }

  lemma UrlOfElement(table: seq<RouteInfo>, url: string)
    ensures url in Urls(table) <==> exists e :: e in table && e.url == url
  {
    if url in Urls(table) {
      var i :| 0 <= i < |table| && Urls(table)[i] == url;
      assert table[i] in table;
    }
    if e :| e in table && e.url == url {
      var i :| 0 <= i < |table| && table[i] == e;
      assert Urls(table)[i] == url;
    }
  }

  // ---------------------------------------------------------------- exactly when the order matters

  lemma {:induction false} FirstWins(m: Model, order: seq<Identity>, url: string)
    requires order != [] && Known(m, order) && url in UrlsIn(Own(m, order[0]))
    ensures url in Builders(m, order)
    ensures Builders(m, order)[url].category == order[0].category && Builders(m, order)[url].private == order[0].private
  {
    var n := |order| - 1;
    if n > 0 {
      assert order[..n][0] == order[0];
      FirstWins(m, order[..n], url);
    } else {
      assert Builders(m, order[..0]) == map[];
    }
  }

  lemma {:induction false} SomeOrder(ids: set<Identity>) returns (order: seq<Identity>)
    ensures Distinct(order) && ElementsOf(order) == ids
  {
    order := [];
    if ids != {} {
      var id :| id in ids;
      var rest := SomeOrder(ids - {id});
      order := [id] + rest;
      assert forall i :: 0 <= i < |rest| ==> rest[i] in ElementsOf(rest);
      ElementsOfCons(id, rest);
    }
  }

  lemma ElementsOfCons(id: Identity, rest: seq<Identity>)
    ensures ElementsOf([id] + rest) == {id} + ElementsOf(rest)
  {
  }

  lemma OrderStartingWith(m: Model, processors: set<Identity>, id: Identity) returns (order: seq<Identity>)
    requires id in m.relationships && id in processors
    ensures IsOrder(m, processors, order) && order != [] && order[0] == id
  {
    var ids := m.relationships.Keys * processors;
    var rest := SomeOrder(ids - {id});
    order := [id] + rest;
    assert forall i :: 0 <= i < |rest| ==> rest[i] in ElementsOf(rest);
    ElementsOfCons(id, rest);
  }

  ghost predicate BuildCanGive(m: Model, processors: set<Identity>, table: seq<RouteInfo>) {
    exists order :: IsOrder(m, processors, order) && Shows(Builders(m, order), table)
  }

  lemma GivenIsTable(m: Model, processors: set<Identity>, table: seq<RouteInfo>)
    requires BuildCanGive(m, processors, table)
    ensures IsTable(Contributions(m, processors), table)
  {
    var order :| IsOrder(m, processors, order) && Shows(Builders(m, order), table);
    BuildersAreBuilt(m, order);
    OrderContributes(m, processors, order);
    ShownIsTable(Builders(m, order), table, Contributions(m, processors));
  }

  lemma TableStartingWith(m: Model, processors: set<Identity>, id: Identity, url: string)
    returns (table: seq<RouteInfo>, i: nat)
    requires id in m.relationships && id in processors && url in UrlsIn(Own(m, id))
    ensures BuildCanGive(m, processors, table) && i < |table| && table[i].url == url
    ensures table[i].identity == id.category && table[i].private == id.private
  {
    var order := OrderStartingWith(m, processors, id);
    FirstWins(m, order, url);
    table := TableExists(Builders(m, order));
    assert url in Urls(table);
    i :| 0 <= i < |table| && Urls(table)[i] == url;
    assert ShowsEntry(Builders(m, order), table[i]);
  }

  lemma OneUrlOneEntry(table: seq<RouteInfo>, i: nat, j: nat)
    requires Increasing(Urls(table)) && i < |table| && j < |table| && table[i].url == table[j].url
    ensures i == j
  {
    LessIsTotal(table[i].url, table[i].url);
    assert Urls(table)[i] == Urls(table)[j];
  }

  /** Two orders of the identities give different tables exactly when contributors to one URL disagree. */
  lemma OrderMattersExactlyWhen(m: Model, processors: set<Identity>)
    ensures (exists s, t :: BuildCanGive(m, processors, s) && BuildCanGive(m, processors, t) && s != t)
            <==> !Coherent(Contributions(m, processors))
  {
    var cs := Contributions(m, processors);
    if s, t :| BuildCanGive(m, processors, s) && BuildCanGive(m, processors, t) && s != t {
      GivenIsTable(m, processors, s);
      GivenIsTable(m, processors, t);
      if Coherent(cs) { TableIsUnique(cs, s, t); }
    }
    if !Coherent(cs) {
      var c, d :| c in cs && d in cs && c.url == d.url &&
        !(c.identity.category == d.identity.category && c.identity.private == d.identity.private);
      Contributor(m, processors, c);
      Contributor(m, processors, d);
      var s, i := TableStartingWith(m, processors, c.identity, c.url);
      var t, j := TableStartingWith(m, processors, d.identity, d.url);
      if s == t {
        GivenIsTable(m, processors, s);
        OneUrlOneEntry(s, i, j);
      }
    }
  }

  lemma CreateContributes(m: Model, processors: set<Identity>, id: Identity)
    requires id in m.relationships && id in processors && m.relationships[id].create != {}
    ensures Contribution(CollectionUrl(id), "POST", id) in Contributions(m, processors)
  {
    assert Contribution(CollectionUrl(id), "POST", id) in Own(m, id);
  }

  /** For one: two identities of category `x`, of which one is private, both created at the root. */
  lemma PrivacyByOrder() returns (m: Model, processors: set<Identity>, s: seq<RouteInfo>, t: seq<RouteInfo>)
    ensures m.relationships.Keys == {Identity("a", "x", true), Identity("b", "x", false)} == processors
    ensures BuildCanGive(m, processors, s) && BuildCanGive(m, processors, t) && s != t
  {
    var a, b := Identity("a", "x", true), Identity("b", "x", false);
    var rel := Relationship({"root"}, {}, {}, {}, {});
    m, processors := Model(map[a := rel, b := rel], map[]), {a, b};
    var c, d := Contribution("/x", "POST", a), Contribution("/x", "POST", b);
    assert CollectionUrl(a) == "/x" && CollectionUrl(b) == "/x";
    CreateContributes(m, processors, a);
    CreateContributes(m, processors, b);
    assert c.identity.private != d.identity.private;
    assert !Coherent(Contributions(m, processors));
    OrderMattersExactlyWhen(m, processors);
    s, t :| BuildCanGive(m, processors, s) && BuildCanGive(m, processors, t) && s != t;
  }

  lemma Contributor(m: Model, processors: set<Identity>, c: Contribution)
    requires c in Contributions(m, processors)
    ensures c.identity in m.relationships && c.identity in processors && c.url in UrlsIn(Own(m, c.identity))
  {
    var id :| id in m.relationships && id in processors && c in Own(m, id);
    OwnUrls(m, id, c);
  }

  // ---------------------------------------------------------------- what the table says, written out

  /** The operations of an identity and where they are announced. */
  ghost predicate Announces(m: Model, id: Identity, url: string, verb: string)
    requires id in m.relationships
  {
    var r := m.relationships[id];
    || (r.create != {} && verb == "POST" && url == "/" + id.category)
    || (r.retrieve != {} && verb == "GET" && url == "/" + id.category + "/:id")
    || (r.delete != {} && verb == "DELETE" && url == "/" + id.category + "/:id")
    || (r.update != {} && verb == "PUT" && url == "/" + id.category + "/:id")
    || ("root" in r.retrieveMany && verb == "GET" && url == "/" + id.category)
    || (verb == "GET" && exists p :: p in r.retrieveMany && IsUnder(m, p, id, url))
    || (verb == "POST" && exists p :: p in r.create && IsUnder(m, p, id, url))
  }

  /** The URL for the children of the identity named `p`, whose category is empty when the model does not know it. */
  predicate IsUnder(m: Model, p: string, id: Identity, url: string) {
    && p != "root"
    && (p in m.categories ==> url == "/" + m.categories[p] + "/:id/" + id.category)
    && (p !in m.categories ==> url == "/" + "" + "/:id/" + id.category)
  }

  lemma ListedMeans(m: Model, id: Identity, parents: set<string>, verb: string, c: Contribution)
    ensures c in Listed(m, id, parents, verb) <==>
            && c.verb == verb && c.identity == id
            && (("root" in parents && c.url == "/" + id.category)
                || exists p :: p in parents && IsUnder(m, p, id, c.url))
  {
    if p :| p in parents && IsUnder(m, p, id, c.url) {
      assert ChildUrl(m, p, id) == c.url;
    }
    if "root" in parents && c.url == "/" + id.category {
      assert ChildUrl(m, "root", id) == c.url;
    }
    if c in Listed(m, id, parents, verb) {
      var p :| p in parents && c == Contribution(ChildUrl(m, p, id), verb, id);
      assert p != "root" ==> IsUnder(m, p, id, c.url);
    }
  }

  lemma OwnMeans(m: Model, id: Identity, url: string, verb: string)
    requires id in m.relationships
    ensures Contribution(url, verb, id) in Own(m, id) <==> Announces(m, id, url, verb)
  {
    var r, c := m.relationships[id], Contribution(url, verb, id);
    ListedMeans(m, id, r.retrieveMany, "GET", c);
    ListedMeans(m, id, r.create, "POST", c);
  }

  lemma HasMeans(m: Model, processors: set<Identity>, url: string, verb: string)
    ensures Has(Contributions(m, processors), url, verb) <==>
            exists id :: id in m.relationships && id in processors && Announces(m, id, url, verb)
  {
    var cs := Contributions(m, processors);
    if Has(cs, url, verb) {
      var c :| c in cs && c.url == url && c.verb == verb;
      var id :| id in m.relationships && id in processors && c in Own(m, id);
      OwnUrls(m, id, c);
      assert c == Contribution(url, verb, id);
      OwnMeans(m, id, url, verb);
    }
    if id :| id in m.relationships && id in processors && Announces(m, id, url, verb) {
      OwnMeans(m, id, url, verb);
      var c := Contribution(url, verb, id);
      assert c in cs && c.url == url && c.verb == verb;
    }
  }

  /**
    A table has a verb at a URL exactly when some identity with a processor
    announces it there: creation by POST on the collection and under each
    parent, retrieval, deletion and update by GET, DELETE and PUT on the item,
    and listing by GET at the root or under each parent.
  */
  lemma VerbsAnnouncedExactlyWhen(m: Model, processors: set<Identity>, table: seq<RouteInfo>, url: string, verb: string)
    requires BuildCanGive(m, processors, table)
    ensures (exists i :: 0 <= i < |table| && table[i].url == url && verb in table[i].verbs) <==>
            exists id :: id in m.relationships && id in processors && Announces(m, id, url, verb)
  {
    var cs := Contributions(m, processors);
    GivenIsTable(m, processors, table);
    HasMeans(m, processors, url, verb);
    if i :| 0 <= i < |table| && table[i].url == url && verb in table[i].verbs {
      assert IsEntry(cs, table[i]);
    }
    if Has(cs, url, verb) {
      assert HasUrl(cs, url);
      var i :| 0 <= i < |table| && Urls(table)[i] == url;
      assert IsEntry(cs, table[i]) && table[i].url == url;
    }
  }

  // ---------------------------------------------------------------- building the table

  /** The first contributor to a URL gives it its identity, the later ones only a verb. */
  method AddRoute(routes: map<string, RouteBuilder>, c: Contribution) returns (r: map<string, RouteBuilder>)
    ensures r == AddOwn(routes, c.identity, {c})
  {
    r := routes;
    if c.url !in r {
      r := r[c.url := RouteBuilder({}, c.identity.category, c.identity.private)];
    }
    r := r[c.url := r[c.url].(verbs := r[c.url].verbs + {c.verb})];
    OneContribution(routes, c);
  }

  lemma OneContribution(routes: map<string, RouteBuilder>, c: Contribution)
    ensures AddOwn(routes, c.identity, {c}) ==
            if c.url in routes then routes[c.url := routes[c.url].(verbs := routes[c.url].verbs + {c.verb})]
            else routes[c.url := RouteBuilder({} + {c.verb}, c.identity.category, c.identity.private)]
  {
    var r := AddOwn(routes, c.identity, {c});
    assert {} + {c.verb} == {c.verb};
    assert UrlsIn({c}) == {c.url};
    assert VerbsIn({c}, c.url) == {c.verb};
    forall url | url in routes && url != c.url ensures r[url] == routes[url] {
      assert VerbsIn({c}, url) == {};
    }
  }

  /** The routes under each parent, the parents taken in any order. */
  method AddListed(m: Model, id: Identity, parents: set<string>, verb: string, routes: map<string, RouteBuilder>)
    returns (r: map<string, RouteBuilder>)
    ensures r == AddOwn(routes, id, Listed(m, id, parents, verb))
  {
    r := routes;
    var todo := parents;
    AddNothing(routes, id);
    assert Listed(m, id, parents - todo, verb) == {};
    while todo != {}
      invariant todo <= parents
      invariant r == AddOwn(routes, id, Listed(m, id, parents - todo, verb))
    {
      var p :| p in todo;
      var c := Contribution(ChildUrl(m, p, id), verb, id);
      r := AddRoute(r, c);
      AddOwnTwice(routes, id, Listed(m, id, parents - todo, verb), {c});
      assert Listed(m, id, parents - (todo - {p}), verb) == Listed(m, id, parents - todo, verb) + {c};
      todo := todo - {p};
    }
    assert parents - todo == parents;
  }

  method AddWhen(b: bool, c: Contribution, routes: map<string, RouteBuilder>) returns (r: map<string, RouteBuilder>)
    ensures r == AddOwn(routes, c.identity, When(b, c))
  {
    r := routes;
    AddNothing(routes, c.identity);
    if b {
      r := AddRoute(r, c);
    }
  }

  method AddIdentity(m: Model, id: Identity, routes: map<string, RouteBuilder>) returns (r: map<string, RouteBuilder>)
    requires id in m.relationships
    ensures r == AddOwn(routes, id, Own(m, id))
  {
    var rel := m.relationships[id];
    r := AddWhen(rel.create != {}, Contribution(CollectionUrl(id), "POST", id), routes);
    ghost var s := When(rel.create != {}, Contribution(CollectionUrl(id), "POST", id));
    r := AddWhen(rel.retrieve != {}, Contribution(ItemUrl(id), "GET", id), r);
    s := Added(routes, id, s, When(rel.retrieve != {}, Contribution(ItemUrl(id), "GET", id)));
    r := AddWhen(rel.delete != {}, Contribution(ItemUrl(id), "DELETE", id), r);
    s := Added(routes, id, s, When(rel.delete != {}, Contribution(ItemUrl(id), "DELETE", id)));
    r := AddWhen(rel.update != {}, Contribution(ItemUrl(id), "PUT", id), r);
    s := Added(routes, id, s, When(rel.update != {}, Contribution(ItemUrl(id), "PUT", id)));
    r := AddListed(m, id, rel.retrieveMany, "GET", r);
    s := Added(routes, id, s, Listed(m, id, rel.retrieveMany, "GET"));
    r := AddListed(m, id, rel.create, "POST", r);
    s := Added(routes, id, s, Listed(m, id, rel.create, "POST"));
  }

  lemma Added(routes: map<string, RouteBuilder>, id: Identity, a: set<Contribution>, b: set<Contribution>)
    returns (both: set<Contribution>)
    ensures both == a + b && AddOwn(AddOwn(routes, id, a), id, b) == AddOwn(routes, id, both)
  {
    both := a + b;
    AddOwnTwice(routes, id, a, b);
  }

  function Self(s: string): string { s }

  /** The verbs of a route, gathered in any order, then sorted. */
  method FlatVerbs(verbs: set<string>) returns (flat: seq<string>)
    ensures Increasing(flat) && forall v :: v in flat <==> v in verbs
  {
    flat := [];
    var todo := verbs;
    while todo != {}
      invariant todo <= verbs && DistinctKeys(flat, Self)
      invariant forall v :: v in flat <==> v in verbs && v !in todo
    {
      var v :| v in todo;
      flat := flat + [v];
      todo := todo - {v};
    }
    SortSorts(flat, Self);
    flat := Sort(flat, Self);
    assert KeysOf(flat, Self) == flat;
  }

  /** Walks the identities, in any order, and skips those without a processor. */
  method CollectBuilders(m: Model, processors: set<Identity>)
    returns (routes: map<string, RouteBuilder>, ghost order: seq<Identity>)
    ensures IsOrder(m, processors, order) && routes == Builders(m, order)
  {
    routes, order := map[], [];
    var ids := m.relationships.Keys;
    while ids != {}
      invariant ids <= m.relationships.Keys
      invariant Known(m, order) && Distinct(order) && ElementsOf(order) == (m.relationships.Keys - ids) * processors
      invariant routes == Builders(m, order)
    {
      var id :| id in ids;
      if id in processors {
        routes := AddIdentity(m, id, routes);
        OrderSnoc(m, order, id);
        order := order + [id];
      }
      ids := ids - {id};
    }
  }

  lemma OrderSnoc(m: Model, order: seq<Identity>, id: Identity)
    requires Known(m, order) && Distinct(order) && id in m.relationships && id !in ElementsOf(order)
    ensures Known(m, order + [id]) && Distinct(order + [id]) && ElementsOf(order + [id]) == ElementsOf(order) + {id}
    ensures Builders(m, order + [id]) == AddOwn(Builders(m, order), id, Own(m, id))
  {
    assert (order + [id])[..|order|] == order;
    assert forall i :: 0 <= i < |order| ==> order[i] in ElementsOf(order);
  }

  /** Turns the builders into entries, in any order. */
  method Flatten(routes: map<string, RouteBuilder>) returns (table: seq<RouteInfo>)
    ensures DistinctKeys(table, UrlOf)
    ensures forall i :: 0 <= i < |table| ==> ShowsEntry(routes, table[i])
    ensures forall url :: url in Urls(table) <==> url in routes
  {
    table := [];
    var urls := routes.Keys;
    while urls != {}
      invariant urls <= routes.Keys && DistinctKeys(table, UrlOf)
      invariant forall i :: 0 <= i < |table| ==> ShowsEntry(routes, table[i])
      invariant forall url :: url in Urls(table) <==> url in routes && url !in urls
    {
      var url :| url in urls;
      var flat := FlatVerbs(routes[url].verbs);
      var e := RouteInfo(routes[url].category, url, flat, routes[url].private);
      assert ShowsEntry(routes, e);
      assert Urls(table + [e]) == Urls(table) + [url];
      assert forall i :: 0 <= i < |table| ==> Urls(table)[i] == UrlOf(table[i]);
      table := table + [e];
      urls := urls - {url};
    }
  }

  /** The table of one version: the one that some order of the identities builds. */
  method BuildRoutes(m: Model, processors: set<Identity>) returns (table: seq<RouteInfo>)
    ensures BuildCanGive(m, processors, table)
  {
    var routes, order := CollectBuilders(m, processors);
    table := Flatten(routes);
    SortedShows(routes, table);
    table := Sort(table, UrlOf);
  }

  lemma SameUrls(r: seq<RouteInfo>, s: seq<RouteInfo>, url: string)
    requires forall e :: e in r ==> e in s
    requires url in Urls(r)
    ensures url in Urls(s)
  {
    UrlOfElement(r, url);
    UrlOfElement(s, url);
  }

  lemma SortedShows(routes: map<string, RouteBuilder>, table: seq<RouteInfo>)
    requires DistinctKeys(table, UrlOf)
    requires forall i :: 0 <= i < |table| ==> ShowsEntry(routes, table[i])
    requires forall url :: url in Urls(table) <==> url in routes
    ensures Shows(routes, Sort(table, UrlOf))
  {
    var sorted := Sort(table, UrlOf);
    SortSorts(table, UrlOf);
    forall i | 0 <= i < |sorted| ensures ShowsEntry(routes, sorted[i]) {
      assert sorted[i] in table;
    }
    forall url ensures url in Urls(sorted) <==> url in Urls(table) {
      if url in Urls(sorted) { SameUrls(sorted, table, url); }
      if url in Urls(table) { SameUrls(table, sorted, url); }
    }
  }

  /** The tables of all versions, each built in some order of its identities. */
  method BuildVersionedRoutes(models: map<int, Model>, processors: set<Identity>)
    returns (tables: map<int, seq<RouteInfo>>)
    ensures tables.Keys == models.Keys
    ensures forall v :: v in models ==> BuildCanGive(models[v], processors, tables[v])
    ensures forall v :: v in models ==> IsTable(Contributions(models[v], processors), tables[v])
  {
    tables := map[];
    var todo := models.Keys;
    while todo != {}
      invariant todo <= models.Keys && tables.Keys == models.Keys - todo
      invariant forall v :: v in tables ==> BuildCanGive(models[v], processors, tables[v])
    {
      var v := AnyOf(todo);
      var table := BuildRoutes(models[v], processors);
      tables := tables[v := table];
      todo := todo - {v};
    }
    forall v | v in models ensures IsTable(Contributions(models[v], processors), tables[v]) {
      GivenIsTable(models[v], processors, tables[v]);
    }
  }

  /** Two builds of the same well-named model, with any iteration orders, announce the same tables. */
  lemma SameTablesForEveryOrder(models: map<int, Model>, processors: set<Identity>,
                                s: map<int, seq<RouteInfo>>, t: map<int, seq<RouteInfo>>)
    requires forall v :: v in models ==> WellNamed(models[v], processors)
    requires s.Keys == models.Keys && t.Keys == models.Keys
    requires forall v :: v in models ==> BuildCanGive(models[v], processors, s[v])
    requires forall v :: v in models ==> BuildCanGive(models[v], processors, t[v])
    ensures s == t
  {
    forall v | v in models ensures s[v] == t[v] {
      WellNamedIsCoherent(models[v], processors);
      OrderMattersExactlyWhen(models[v], processors);
    }
  }
}
