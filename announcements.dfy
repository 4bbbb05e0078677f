/** The announcements renderer: it normalises the fetched posts, orders them pinned first and
    newest first, and replaces the children of the announcements root with one card per post,
    a "no announcements" card, or an error card. */
module Announcements {
  import opened Text
  import opened Js

  // ---------------------------------------------------------------- data model

  datatype Link = Link(labelText: string, href: string)

  /** A post after `safePost`: every field present. */
  datatype Post = Post(
    id: string,
    date: string,
    title: string,
    pinned: bool,
    tags: seq<string>,
    body: seq<string>,
    links: seq<Link>)

  /** The children of a card's body wrapper. */
  datatype BodyNode =
    | Para(text: string)        // one <p> per body line, as plain text
    | LinkRow(links: seq<Link>) // <div class="links"> with one button-styled <a> per link

  /** The title row: the <h3> title and the pin indicator's text ("Pinned" or nothing). */
  datatype TitleRow = TitleRow(title: string, pinText: string)

  /** The meta row: a <time> with its `dateTime` and shown text, then one badge per tag. */
  datatype MetaRow = MetaRow(dateTime: string, shown: string, badges: seq<string>)

  /** The `article.card.announce` elements the renderer puts in the root. */
  datatype Node =
    | Card(titleRow: TitleRow, meta: MetaRow, body: seq<BodyNode>)
    | Notice(heading: string, text: string) // a card with a heading and a muted line
    | ErrorCard(error: Failure)             // "Unable to load announcements" with the error's message

  /** The card shown when there are no posts. */
  const NoAnnouncements: Node := Notice("No announcements yet", "Check back soon for updates.")

  /** The `Error` thrown for a response that is not ok. */
  const LoadFailed: Failure := Thrown("Failed to load announcements")

  /** The element with id `announce-root`. */
  class AnnounceRoot {
    var children: seq<Node>

    constructor ()
      ensures children == []
    {
      children := [];
    }
  }

  // ---------------------------------------------------------------- normalisation

  /** `String(v || fallback)`. */
  function TextOr(v: Json, fallback: string): string {
    ToStr(Or(v, Str(fallback)))
  }

  /** `Array.isArray(v) ? v.map(String) : []`. */
  function Strings(v: Json): seq<string> {
    if v.Arr? then seq(|v.items|, i requires 0 <= i < |v.items| => ToStr(v.items[i])) else []
  }

  /** The defaulting rule for a string field: a falsy value becomes `fallback`, any other value
      is converted with `String`. */
  ghost predicate TextFrom(v: Json, fallback: string, s: string) {
    if Truthy(v) then s == ToStr(v) else s == fallback
  }

  /** The defaulting rule for a list-of-strings field: an array keeps its length and converts
      each element with `String` (so null becomes "null"); anything else becomes empty. */
  ghost predicate StringsFrom(v: Json, xs: seq<string>) {
    if v.Arr? then |xs| == |v.items| && forall i :: 0 <= i < |xs| ==> xs[i] == ToStr(v.items[i])
    else xs == []
  }

  ghost predicate LinkFrom(v: Json, link: Link) {
    TextFrom(Field(v, "label"), "Learn more", link.labelText) && TextFrom(Field(v, "href"), "#", link.href)
  }

  /** The whole defaulting relation between a raw post and its normalised form. */
  ghost predicate PostFrom(v: Json, post: Post) {
    TextFrom(Field(v, "id"), "", post.id)
    && TextFrom(Field(v, "date"), "", post.date)
    && TextFrom(Field(v, "title"), "Untitled", post.title)
    && post.pinned == Truthy(Field(v, "pinned"))
    && StringsFrom(Field(v, "tags"), post.tags)
    && StringsFrom(Field(v, "body"), post.body)
    && (var ls := Field(v, "links");
        if ls.Arr? then |post.links| == |ls.items|
                        && forall i :: 0 <= i < |ls.items| ==> LinkFrom(ls.items[i], post.links[i])
        else post.links == [])
  }

  /** One link of `safePost`; reading `label` of a null link throws. */
  function SafeLink(v: Json): (r: Result<Link>)
    ensures r.Err? <==> Nullish(v)
    ensures r.Err? ==> r.error == ReadOfNullish("label")
    ensures r.Ok? ==> LinkFrom(v, r.value)
  {
    var labelValue :- Prop(v, "label");
    Ok(Link(TextOr(labelValue, "Learn more"), TextOr(Field(v, "href"), "#")))
  }

  /** The elements of a field that `safePost` maps over: none when the field is not an array. */
  function Elements(v: Json): seq<Json> {
    if v.Arr? then v.items else []
  }

  /** `safePost(p)`: succeeds on every non-null value whose links are all non-null, and then
      fills each field by the defaulting rules; a null post fails at its first read (`id`), a
      null link at its `label`. */
  function SafePost(v: Json): (r: Result<Post>)
    ensures r.Err? <==> Nullish(v) || exists i :: 0 <= i < |Elements(Field(v, "links"))|
                                                 && Nullish(Elements(Field(v, "links"))[i])
    ensures Nullish(v) ==> r == Err(ReadOfNullish("id"))
    ensures !Nullish(v) && r.Err? ==> r.error == ReadOfNullish("label")
    ensures r.Ok? ==> PostFrom(v, r.value)
  {
    // The first read, `p.id`, throws on a null post; the later reads of `p` cannot.
    var idValue :- Prop(v, "id");
    var links :- MapAll(Elements(Field(v, "links")), SafeLink);
    Ok(Post(
      TextOr(idValue, ""),
      TextOr(Field(v, "date"), ""),
      TextOr(Field(v, "title"), "Untitled"),
      Truthy(Field(v, "pinned")),
      Strings(Field(v, "tags")),
      Strings(Field(v, "body")),
      links))
  }

  /** `(items || []).map(safePost)`: a falsy payload is no posts; an array is normalised post by
      post; anything else has no `map` method. */
  function Posts(items: Json): (r: Result<seq<Post>>)
    ensures !Truthy(items) ==> r == Ok([])
    ensures Truthy(items) && !items.Arr? ==> r == Err(NotAFunction("map"))
    ensures items.Arr? && r.Ok? ==> |r.value| == |items.items|
                                    && forall i :: 0 <= i < |items.items| ==> PostFrom(items.items[i], r.value[i])
    ensures items.Arr? ==> (r.Ok? <==> forall i :: 0 <= i < |items.items| ==> SafePost(items.items[i]).Ok?)
  {
    if !Truthy(items) then Ok([])
    else if items.Arr? then MapAll(items.items, SafePost)
    else Err(NotAFunction("map"))
  }

  // ---------------------------------------------------------------- ordering

  /** The comparator handed to `sort`: pinned before unpinned, else the later date first.
      `parse` gives a date's time value, None for an invalid date, in which case the comparator
      yields NaN (None). */
  function Compare(parse: string -> Option<int>, a: Post, b: Post): (r: Option<int>)
    ensures r.None? <==> a.pinned == b.pinned && (parse(a.date).None? || parse(b.date).None?)
    ensures a.pinned != b.pinned ==> r.Some? && (r.value < 0 <==> a.pinned)
    ensures r.Some? && a.pinned == b.pinned ==>
              (r.value < 0 <==> parse(b.date).value < parse(a.date).value)
              && (r.value == 0 <==> parse(a.date) == parse(b.date))
  {
    if a.pinned && !b.pinned then Some(-1)
    else if !a.pinned && b.pinned then Some(1)
    else if parse(a.date).Some? && parse(b.date).Some? then Some(parse(b.date).value - parse(a.date).value)
    else None
  }

  /** How `Array.prototype.sort` reads the comparator: NaN counts as 0. */
  function SortCompare(parse: string -> Option<int>, a: Post, b: Post): (r: int)
    ensures r < 0 <==> (a.pinned && !b.pinned)
                       || (a.pinned == b.pinned && parse(a.date).Some? && parse(b.date).Some?
                           && parse(b.date).value < parse(a.date).value)
    ensures r == 0 <==> a.pinned == b.pinned
                        && (parse(a.date).None? || parse(b.date).None? || parse(a.date) == parse(b.date))
  {
    match Compare(parse, a, b)
    case Some(v) => v
    case None => 0
  }

  /** The comparator is antisymmetric: swapping the posts negates it, NaN included. */
  lemma SortCompareAntisymmetric(parse: string -> Option<int>, a: Post, b: Post)
    ensures SortCompare(parse, b, a) == -SortCompare(parse, a, b)
  {
  }

  /** Places `x` after every leading post that does not sort strictly after it. */
  function Insert(parse: string -> Option<int>, x: Post, s: seq<Post>): (r: seq<Post>)
    ensures |r| == |s| + 1
  {
    if s == [] then [x]
    else if SortCompare(parse, x, s[0]) < 0 then [x] + s
    else [s[0]] + Insert(parse, x, s[1..])
  }

  /** `posts.sort(comparator)`, modelled as a stable insertion sort (ECMAScript requires the
      sort to be stable; with an inconsistent comparator the order it picks is the engine's). */
  function SortPosts(parse: string -> Option<int>, s: seq<Post>): (r: seq<Post>)
    ensures |r| == |s|
  {
    if s == [] then [] else Insert(parse, s[|s| - 1], SortPosts(parse, s[..|s| - 1]))
  }

  lemma {:induction false} InsertPermutes(parse: string -> Option<int>, x: Post, s: seq<Post>)
    ensures multiset(Insert(parse, x, s)) == multiset(s) + multiset{x}
  {
    if s != [] && SortCompare(parse, x, s[0]) >= 0 {
      InsertPermutes(parse, x, s[1..]);
      assert s == [s[0]] + s[1..];
    }
  }

  /** Sorting only reorders: the result is a permutation of the input. */
  lemma {:induction false} SortIsPermutation(parse: string -> Option<int>, s: seq<Post>)
    ensures multiset(SortPosts(parse, s)) == multiset(s)
  {
    if s != [] {
      SortIsPermutation(parse, s[..|s| - 1]);
      InsertPermutes(parse, s[|s| - 1], SortPosts(parse, s[..|s| - 1]));
      assert s == s[..|s| - 1] + [s[|s| - 1]];
    }
  }

  /** A property every post has survives an insertion. */
  lemma {:induction false} InsertKeeps(parse: string -> Option<int>, p: Post -> bool, x: Post, s: seq<Post>)
    requires p(x) && forall k :: 0 <= k < |s| ==> p(s[k])
    ensures forall k :: 0 <= k < |s| + 1 ==> p(Insert(parse, x, s)[k])
  {
    if s != [] && SortCompare(parse, x, s[0]) >= 0 {
      InsertKeeps(parse, p, x, s[1..]);
    }
  }

  /** No unpinned post comes before a pinned one. */
  ghost predicate PinnedFirst(s: seq<Post>) {
    forall i, j :: 0 <= i < j < |s| && s[j].pinned ==> s[i].pinned
  }

  lemma {:induction false} InsertPinnedFirst(parse: string -> Option<int>, x: Post, s: seq<Post>)
    requires PinnedFirst(s)
    ensures PinnedFirst(Insert(parse, x, s))
  {
    if s == [] {
    } else if SortCompare(parse, x, s[0]) < 0 {
      // x goes first; a pinned head of s would have sorted before an unpinned x
      var r := [x] + s;
      assert s[0].pinned ==> x.pinned;
      forall i, j | 0 <= i < j < |r| && r[j].pinned ensures r[i].pinned {
        assert r[j] == s[j - 1];
        if i > 0 {
          assert r[i] == s[i - 1];
        }
      }
    } else {
      var rest := Insert(parse, x, s[1..]);
      InsertPinnedFirst(parse, x, s[1..]);
      // everything that follows an unpinned head is unpinned, x included
      InsertKeeps(parse, (p: Post) => s[0].pinned || !p.pinned, x, s[1..]);
      var r := [s[0]] + rest;
      forall i, j | 0 <= i < j < |r| && r[j].pinned ensures r[i].pinned {
        assert r[j] == rest[j - 1];
        if i > 0 {
          assert r[i] == rest[i - 1];
        }
      }
    }
  }

  /** Every pinned post precedes every unpinned post, whatever the dates. */
  lemma {:induction false} SortPinnedFirst(parse: string -> Option<int>, s: seq<Post>)
    ensures PinnedFirst(SortPosts(parse, s))
  {
    if s != [] {
      SortPinnedFirst(parse, s[..|s| - 1]);
      InsertPinnedFirst(parse, s[|s| - 1], SortPosts(parse, s[..|s| - 1]));
    }
  }

  /** Every post's date is valid. */
  ghost predicate AllDatesParse(parse: string -> Option<int>, s: seq<Post>) {
    forall i :: 0 <= i < |s| ==> parse(s[i].date).Some?
  }

  /** `a` may come before `b`: pinned over unpinned, else a valid date at least as late. */
  ghost predicate Before(parse: string -> Option<int>, a: Post, b: Post) {
    (a.pinned && !b.pinned)
    || (a.pinned == b.pinned && parse(a.date).Some? && parse(b.date).Some?
        && parse(a.date).value >= parse(b.date).value)
  }

  /** `a` must come before `b`: pinned over unpinned, else a strictly later valid date. */
  ghost predicate StrictlyBefore(parse: string -> Option<int>, a: Post, b: Post) {
    (a.pinned && !b.pinned)
    || (a.pinned == b.pinned && parse(a.date).Some? && parse(b.date).Some?
        && parse(a.date).value > parse(b.date).value)
  }

  /** Every earlier post may precede every later one. */
  ghost predicate Ordered(parse: string -> Option<int>, s: seq<Post>) {
    forall i, j :: 0 <= i < j < |s| ==> Before(parse, s[i], s[j])
  }

  /** On valid dates the comparator's sign is the order. */
  lemma CompareOrder(parse: string -> Option<int>, a: Post, b: Post)
    requires parse(a.date).Some? && parse(b.date).Some?
    ensures SortCompare(parse, a, b) < 0 ==> StrictlyBefore(parse, a, b)
    ensures SortCompare(parse, a, b) >= 0 ==> Before(parse, b, a)
  {
  }

  lemma {:induction false} InsertOrdered(parse: string -> Option<int>, x: Post, s: seq<Post>)
    requires parse(x.date).Some? && AllDatesParse(parse, s) && Ordered(parse, s)
    ensures Ordered(parse, Insert(parse, x, s))
  {
    if s == [] {
    } else if SortCompare(parse, x, s[0]) < 0 {
      CompareOrder(parse, x, s[0]);
      var r := [x] + s;
      forall i, j | 0 <= i < j < |r| ensures Before(parse, r[i], r[j]) {
        assert r[j] == s[j - 1];
        if i > 0 {
          assert r[i] == s[i - 1];
        } else if j > 1 {
          assert Before(parse, s[0], s[j - 1]);
        }
      }
    } else {
      CompareOrder(parse, x, s[0]);
      var rest := Insert(parse, x, s[1..]);
      InsertOrdered(parse, x, s[1..]);
      InsertKeeps(parse, (p: Post) => Before(parse, s[0], p), x, s[1..]);
      var r := [s[0]] + rest;
      forall i, j | 0 <= i < j < |r| ensures Before(parse, r[i], r[j]) {
        assert r[j] == rest[j - 1];
        if i > 0 {
          assert r[i] == rest[i - 1];
        }
      }
    }
  }

  lemma {:induction false} SortOrdered(parse: string -> Option<int>, s: seq<Post>)
    requires AllDatesParse(parse, s)
    ensures AllDatesParse(parse, SortPosts(parse, s)) && Ordered(parse, SortPosts(parse, s))
  {
    if s != [] {
      var init := s[..|s| - 1];
      assert AllDatesParse(parse, init);
      SortOrdered(parse, init);
      InsertOrdered(parse, s[|s| - 1], SortPosts(parse, init));
      InsertKeeps(parse, (p: Post) => parse(p.date).Some?, s[|s| - 1], SortPosts(parse, init));
    }
  }

  /** When every date is valid: within the same pin state, dates never increase. */
  lemma SortNewestFirst(parse: string -> Option<int>, s: seq<Post>)
    requires AllDatesParse(parse, s)
    ensures var r := SortPosts(parse, s);
            forall i, j :: 0 <= i < j < |r| && r[i].pinned == r[j].pinned ==>
              parse(r[i].date).Some? && parse(r[j].date).Some? && parse(r[i].date).value >= parse(r[j].date).value
  {
    SortOrdered(parse, s);
  }

  /** Two posts the comparator cannot tell apart: same pin state, same time value. */
  predicate SameKey(parse: string -> Option<int>, a: Post, b: Post) {
    a.pinned == b.pinned && parse(a.date) == parse(b.date)
  }

  /** The posts of `s` that share `q`'s key, in the order of `s`. */
  function WithKey(parse: string -> Option<int>, s: seq<Post>, q: Post): seq<Post> {
    if s == [] then []
    else (if SameKey(parse, s[0], q) then [s[0]] else []) + WithKey(parse, s[1..], q)
  }

  lemma {:induction false} WithKeyAppend(parse: string -> Option<int>, a: seq<Post>, b: seq<Post>, q: Post)
    ensures WithKey(parse, a + b, q) == WithKey(parse, a, q) + WithKey(parse, b, q)
  {
    if a != [] {
      assert (a + b)[0] == a[0];
      assert (a + b)[1..] == a[1..] + b;
      WithKeyAppend(parse, a[1..], b, q);
    } else {
      assert a + b == b;
    }
  }

  lemma {:induction false} WithKeyNone(parse: string -> Option<int>, s: seq<Post>, q: Post)
    requires forall k :: 0 <= k < |s| ==> !SameKey(parse, s[k], q)
    ensures WithKey(parse, s, q) == []
  {
    if s != [] {
      WithKeyNone(parse, s[1..], q);
    }
  }

  /** Inserting into an ordered list puts `x` after the posts that share its key. */
  lemma {:induction false} InsertStable(parse: string -> Option<int>, x: Post, s: seq<Post>, q: Post)
    requires parse(x.date).Some? && AllDatesParse(parse, s) && Ordered(parse, s)
    ensures WithKey(parse, Insert(parse, x, s), q)
            == WithKey(parse, s, q) + (if SameKey(parse, x, q) then [x] else [])
  {
    if s == [] {
      assert WithKey(parse, [x], q) == (if SameKey(parse, x, q) then [x] else []) + WithKey(parse, [], q);
    } else if SortCompare(parse, x, s[0]) < 0 {
      assert ([x] + s)[1..] == s;
      if SameKey(parse, x, q) {
        // x sorts strictly before the head, hence before everything in s
        CompareOrder(parse, x, s[0]);
        forall k | 0 <= k < |s| ensures !SameKey(parse, s[k], q) {
          if k > 0 {
            assert Before(parse, s[0], s[k]);
          }
        }
        WithKeyNone(parse, s, q);
      }
    } else {
      var rest := Insert(parse, x, s[1..]);
      assert ([s[0]] + rest)[1..] == rest;
      InsertStable(parse, x, s[1..], q);
    }
  }

  /** The sort is stable when every date is valid: the posts sharing any one key keep their
      input order. */
  lemma {:induction false} SortStable(parse: string -> Option<int>, s: seq<Post>, q: Post)
    requires AllDatesParse(parse, s)
    ensures WithKey(parse, SortPosts(parse, s), q) == WithKey(parse, s, q)
  {
    if s != [] {
      var init := s[..|s| - 1];
      var last := s[|s| - 1];
      assert AllDatesParse(parse, init);
      SortOrdered(parse, init);
      var sorted := SortPosts(parse, init);
      var tail := if SameKey(parse, last, q) then [last] else [];
      calc {
        WithKey(parse, SortPosts(parse, s), q);
        WithKey(parse, Insert(parse, last, sorted), q);
        { InsertStable(parse, last, sorted, q); }
        WithKey(parse, sorted, q) + tail;
        { SortStable(parse, init, q); }
        WithKey(parse, init, q) + tail;
        { WithKeyAppend(parse, init, [last], q);
          assert WithKey(parse, [last], q) == tail + WithKey(parse, [], q); }
        WithKey(parse, init + [last], q);
        { assert s == init + [last]; }
        WithKey(parse, s, q);
      }
    }
  }

  // ---------------------------------------------------------------- rendering (specification)

  /** The card body: one plain paragraph per body line, then the links block when there are links. */
  function BodyNodes(post: Post): seq<BodyNode> {
    Paras(post.body) + (if post.links != [] then [LinkRow(post.links)] else [])
  }

  /** One plain paragraph per body line, in order. */
  function Paras(lines: seq<string>): (r: seq<BodyNode>)
    ensures |r| == |lines|
  {
    if lines == [] then [] else Paras(lines[..|lines| - 1]) + [Para(lines[|lines| - 1])]
  }

  /** The k-th paragraph shows the k-th body line. */
  lemma {:induction false} ParasAt(lines: seq<string>)
    ensures forall k :: 0 <= k < |lines| ==> Paras(lines)[k] == Para(lines[k])
  {
    if lines != [] {
      ParasAt(lines[..|lines| - 1]);
    }
  }

  /** The card built for one post. */
  function CardFor(post: Post, localeFormat: string -> Option<string>): Node {
    Card(TitleRow(post.title, if post.pinned then "Pinned" else ""),
         MetaRow(post.date, FormatDate(localeFormat, post.date), post.tags),
         BodyNodes(post))
  }

  /** One card per post, in order. */
  function Cards(posts: seq<Post>, localeFormat: string -> Option<string>): (r: seq<Node>)
    ensures |r| == |posts|
  {
    if posts == [] then [] else Cards(posts[..|posts| - 1], localeFormat) + [CardFor(posts[|posts| - 1], localeFormat)]
  }

  /** The k-th card is the card of the k-th post. */
  lemma {:induction false} CardsAt(posts: seq<Post>, localeFormat: string -> Option<string>)
    ensures forall k :: 0 <= k < |posts| ==> Cards(posts, localeFormat)[k] == CardFor(posts[k], localeFormat)
  {
    if posts != [] {
      CardsAt(posts[..|posts| - 1], localeFormat);
    }
  }

  /** What `renderAnnouncements(items)` puts in the root, or the exception it throws. */
  function Rendered(parse: string -> Option<int>, localeFormat: string -> Option<string>, items: Json): Result<seq<Node>> {
    var posts :- Posts(items);
    var sorted := SortPosts(parse, posts);
    if |sorted| == 0 then Ok([NoAnnouncements]) else Ok(Cards(sorted, localeFormat))
  }

  /** What the announcements root holds once the whole script has run. */
  function AnnouncementsPage(parse: string -> Option<int>, localeFormat: string -> Option<string>,
                             fetched: Result<Response>): seq<Node>
  {
    match fetched
    case Err(e) => [ErrorCard(e)]
    case Ok(res) =>
      if !res.ok then [ErrorCard(LoadFailed)]
      else match res.json
        case Err(e) => [ErrorCard(e)]
        case Ok(items) =>
          match Rendered(parse, localeFormat, items)
          case Err(e) => [ErrorCard(e)]
          case Ok(nodes) => nodes
  }

  // ---------------------------------------------------------------- properties of the rendering

  /** A card shows the title, "Pinned" exactly for pinned posts, the date, the tags as badges in
      order, one plain paragraph per body line, and a links block exactly when there are links. */
  lemma {:induction false} CardLayout(post: Post, localeFormat: string -> Option<string>)
    ensures var c := CardFor(post, localeFormat);
            var nb := |post.body|;
            c.titleRow.title == post.title
            && (c.titleRow.pinText == "Pinned" <==> post.pinned)
            && c.meta.dateTime == post.date && c.meta.badges == post.tags
            && (localeFormat(post.date).None? ==> c.meta.shown == post.date)
            && |c.body| == nb + (if post.links != [] then 1 else 0)
            && (forall k :: 0 <= k < nb ==> c.body[k] == Para(post.body[k]))
            && (post.links != [] ==> c.body[nb] == LinkRow(post.links) && |c.body[nb].links| == |post.links|)
            && (forall k :: 0 <= k < |c.body| && c.body[k].LinkRow? ==> k == nb)
  {
    var c := CardFor(post, localeFormat);
    var ps := Paras(post.body);
    ParasAt(post.body);
    assert c.body == ps + (if post.links != [] then [LinkRow(post.links)] else []);
    forall k | 0 <= k < |post.body| ensures c.body[k] == Para(post.body[k]) {
      assert c.body[k] == ps[k];
    }
  }

  /** No posts (a falsy payload or an empty array) give exactly the one "No announcements yet" card. */
  lemma EmptyGivesNotice(parse: string -> Option<int>, localeFormat: string -> Option<string>, items: Json)
    requires !Truthy(items) || items == Arr([])
    ensures Rendered(parse, localeFormat, items) == Ok([NoAnnouncements])
  {
  }

  /** Any failure (rejected fetch, a response that is not ok, a body that is not JSON, a null
      post or link, a payload without `map`) gives exactly one error card, never the
      "no announcements" card. */
  lemma FailureGivesErrorCard(parse: string -> Option<int>, localeFormat: string -> Option<string>,
                              fetched: Result<Response>)
    requires fetched.Err? || !fetched.value.ok || fetched.value.json.Err?
             || Posts(fetched.value.json.value).Err?
    ensures var page := AnnouncementsPage(parse, localeFormat, fetched);
            |page| == 1 && page[0].ErrorCard? && page[0] != NoAnnouncements
    ensures fetched.Ok? && !fetched.value.ok ==> AnnouncementsPage(parse, localeFormat, fetched) == [ErrorCard(LoadFailed)]
  {
  }

  /** With posts, the page is one card per post in sorted order, pinned cards first, and no
      placeholder card. */
  lemma {:induction false} CardsInSortedOrder(parse: string -> Option<int>, localeFormat: string -> Option<string>,
                                             items: Json)
    requires Posts(items).Ok? && Posts(items).value != []
    ensures var sorted := SortPosts(parse, Posts(items).value);
            var nodes := Rendered(parse, localeFormat, items);
            nodes.Ok? && |nodes.value| == |Posts(items).value|
            && (forall k :: 0 <= k < |nodes.value| ==> nodes.value[k] == CardFor(sorted[k], localeFormat))
            && (forall i, j :: 0 <= i < j < |nodes.value| && nodes.value[j].titleRow.pinText == "Pinned"
                  ==> nodes.value[i].titleRow.pinText == "Pinned")
  {
    var posts := Posts(items).value;
    SortPinnedFirst(parse, posts);
    CardsAt(SortPosts(parse, posts), localeFormat);
  }

  // ---------------------------------------------------------------- rendering (the script's steps)

  /** The tag badges of a card, one per tag, in order. */
  method RenderTags(tags: seq<string>) returns (badges: seq<string>)
    ensures badges == tags
  {
    badges := [];
    var t := 0;
    while t < |tags|
      invariant 0 <= t <= |tags|
      invariant badges == tags[..t]
    {
      badges := badges + [tags[t]];
      t := t + 1;
    }
  }

  /** The `post.body.forEach` loop: one paragraph per line. */
  method RenderBody(lines: seq<string>) returns (paras: seq<BodyNode>)
    ensures paras == Paras(lines)
  {
    paras := [];
    var i := 0;
    while i < |lines|
      invariant 0 <= i <= |lines|
      invariant paras == Paras(lines[..i])
    {
      paras := paras + [Para(lines[i])];
      assert lines[..i + 1][..i] == lines[..i];
      i := i + 1;
    }
    assert lines[..i] == lines;
  }

  /** The `post.links.forEach` loop: one anchor per link, in order. */
  method RenderLinks(links: seq<Link>) returns (anchors: seq<Link>)
    ensures anchors == links
  {
    anchors := [];
    var j := 0;
    while j < |links|
      invariant 0 <= j <= |links|
      invariant anchors == links[..j]
    {
      anchors := anchors + [links[j]];
      j := j + 1;
    }
  }

  /** Builds one card, appending child by child as the `forEach` body does. */
  method BuildCard(post: Post, localeFormat: string -> Option<string>) returns (card: Node)
    ensures card == CardFor(post, localeFormat)
  {
    var titleRow := TitleRow(post.title, if post.pinned then "Pinned" else "");
    var badges: seq<string> := [];
    if |post.tags| > 0 {
      badges := RenderTags(post.tags);
    }
    var meta := MetaRow(post.date, FormatDate(localeFormat, post.date), badges);
    var bodyWrap := RenderBody(post.body);
    if |post.links| > 0 {
      var links := RenderLinks(post.links);
      bodyWrap := bodyWrap + [LinkRow(links)];
    }
    card := Card(titleRow, meta, bodyWrap);
  }

  /** The `posts.forEach` loop: one card per post, in order. */
  method RenderCards(posts: seq<Post>, localeFormat: string -> Option<string>) returns (frag: seq<Node>)
    ensures frag == Cards(posts, localeFormat)
  {
    frag := [];
    var i := 0;
    while i < |posts|
      invariant 0 <= i <= |posts|
      invariant frag == Cards(posts[..i], localeFormat)
    {
      var card := BuildCard(posts[i], localeFormat);
      frag := frag + [card];
      assert posts[..i + 1][..i] == posts[..i];
      i := i + 1;
    }
    assert posts[..i] == posts;
  }

  /** `renderAnnouncements(items)`: normalises and sorts the posts (an exception leaves the root
      untouched and is passed on), then shows the "no announcements" card or one card per post. */
  method RenderAnnouncements(root: AnnounceRoot, parse: string -> Option<int>,
                             localeFormat: string -> Option<string>, items: Json)
    returns (thrown: Option<Failure>)
    modifies root
    ensures Rendered(parse, localeFormat, items).Err? ==>
              thrown == Some(Rendered(parse, localeFormat, items).error) && root.children == old(root.children)
    ensures Rendered(parse, localeFormat, items).Ok? ==>
              thrown == None && root.children == Rendered(parse, localeFormat, items).value
  {
    var normalized := Posts(items);
    if normalized.Err? {
      return Some(normalized.error);
    }
    var posts := SortPosts(parse, normalized.value);
    if |posts| == 0 {
      root.children := [NoAnnouncements];
      return None;
    }
    var frag := RenderCards(posts, localeFormat);
    root.children := frag;
    thrown := None;
  }

  /** The whole script: fetch, check `ok`, parse, render, and show the error card for any failure. */
  method ShowAnnouncements(root: AnnounceRoot, parse: string -> Option<int>,
                           localeFormat: string -> Option<string>, fetched: Result<Response>)
    modifies root
    ensures root.children == AnnouncementsPage(parse, localeFormat, fetched)
  {
    match fetched {
      case Err(e) =>
        root.children := [ErrorCard(e)];
      case Ok(res) =>
        if !res.ok {
          root.children := [ErrorCard(LoadFailed)];
        } else if res.json.Err? {
          root.children := [ErrorCard(res.json.error)];
        } else {
          var thrown := RenderAnnouncements(root, parse, localeFormat, res.json.value);
          if thrown.Some? {
            root.children := [ErrorCard(thrown.value)];
          }
        }
    }
  }
}
