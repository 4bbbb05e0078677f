/** The shared page script: it marks the navigation link of the current page and keeps the
    "new announcements" badge on the navigation link to the announcements page, remembering in
    local storage the latest announcement date the visitor has seen. */
module Includes {
  import opened Text
  import opened Js

  // ---------------------------------------------------------------- data model

  /** The page whose visit marks every announcement as seen. */
  const AnnouncementsPage: string := "announcements.html"

  /** What an anchor of the navigation holds that the script reads or writes. */
  datatype LinkState = LinkState(
    href: string,                  // the `href` attribute
    text: string,                  // the link's text content
    hasBadge: bool,                // whether the class list holds "has-badge"
    dots: nat,                     // how many `span.nav-badge` elements the link contains
    ariaLabel: Option<string>,     // the `aria-label` attribute
    ariaCurrent: Option<string>)   // the `aria-current` attribute

  /** An anchor `nav.nav-links a[href]`, whose class list, children and attributes the script
      changes in place. */
  class NavLink {
    var href: string
    var text: string
    var hasBadge: bool
    var dots: nat
    var ariaLabel: Option<string>
    var ariaCurrent: Option<string>

    constructor (href: string, text: string)
      ensures State() == LinkState(href, text, false, 0, None, None)
    {
      this.href := href;
      this.text := text;
      hasBadge := false;
      dots := 0;
      ariaLabel := None;
      ariaCurrent := None;
    }

    function State(): LinkState
      reads this
    {
      LinkState(href, text, hasBadge, dots, ariaLabel, ariaCurrent)
    }

    /** `addAnnouncementsBadge(this)`. */
    method AddBadge()
      modifies this
      ensures State() == Added(old(State()))
    {
      hasBadge := true;
      if dots == 0 {
        dots := 1;
      }
      var base := if ariaLabel.Some? && ariaLabel.value != "" then ariaLabel.value else Trim(text);
      if !EndsWithIgnoreCase(base, "new)") {
        ariaLabel := Some(StripNewSuffix(base) + " (new)");
      }
    }

    /** The body of the `forEach` in `markActiveNav`. */
    method MarkIfCurrent(path: string)
      modifies this
      ensures State() == Marked(old(State()), path)
    {
      var h := ToLower(BeforeHash(href));
      if h == path || (path == "" && h == "index.html") {
        ariaCurrent := Some("page");
      }
    }

    /** `removeAnnouncementsBadge(this)`. */
    method RemoveBadge()
      modifies this
      ensures State() == Removed(old(State()))
    {
      hasBadge := false;
      if dots > 0 {
        dots := dots - 1;
      }
      ariaLabel := Some(Trim(text));
    }
  }

  /** The `announcements:lastSeen` entry of local storage; None when it was never written. */
  class Storage {
    var lastSeen: Option<string>

    constructor (lastSeen: Option<string>)
      ensures this.lastSeen == lastSeen
    {
      this.lastSeen := lastSeen;
    }
  }

  /** No anchor occurs twice in the list, as in the node list `querySelectorAll` returns. */
  ghost predicate Distinct(links: seq<NavLink>) {
    forall i, j :: 0 <= i < j < |links| ==> links[i] != links[j]
  }

  /** The `href` attributes of the links, in document order. */
  function Hrefs(links: seq<NavLink>): (r: seq<string>)
    reads set l | l in links
    ensures |r| == |links| && forall i :: 0 <= i < |links| ==> r[i] == links[i].href
  {
    if links == [] then [] else Hrefs(links[..|links| - 1]) + [links[|links| - 1].href]
  }

  // ---------------------------------------------------------------- the current page

  /** The page a bare directory path serves. */
  const IndexPage: string := "index.html"

  lemma IndexPageHasNoSlash()
    ensures '/' !in IndexPage && |IndexPage| == 10
  {
  }

  /** The lowercased last segment of the location's path, "index.html" when it is empty. */
  function PageName(pathname: string): (r: string)
    ensures r != [] && '/' !in r
    ensures forall i :: 0 <= i < |r| ==> !('A' <= r[i] <= 'Z')
  {
    var segment := if LastSegment(pathname) != "" then LastSegment(pathname) else IndexPage;
    IndexPageHasNoSlash();
    ToLowerShape(segment);
    ToLower(segment)
  }

  /** The test `markActiveNav` applies to one link, including its `path === ''` disjunct. */
  predicate IsCurrent(href: string, path: string) {
    var h := ToLower(BeforeHash(href));
    h == path || (path == "" && h == "index.html")
  }

  /** A link is current exactly when its href without the fragment, lowercased, names the page:
      the lowercased last path segment, or "index.html" for a path ending in a slash. The
      empty-path alternative of the test can never apply, since the page name is never empty. */
  lemma {:induction false} CurrentIffSamePage(href: string, pathname: string)
    ensures PageName(pathname) != ""
    ensures IsCurrent(href, PageName(pathname)) <==> ToLower(BeforeHash(href)) == PageName(pathname)
    ensures LastSegment(pathname) != "" ==>
              (IsCurrent(href, PageName(pathname)) <==> EqualsIgnoreCase(BeforeHash(href), LastSegment(pathname)))
  {
    var seg := LastSegment(pathname);
    if seg != "" {
      ToLowerIdempotent(seg);
    }
  }

  /** The effect of `markActiveNav` on one link. */
  function Marked(s: LinkState, path: string): (r: LinkState)
    ensures r.ariaCurrent == (if IsCurrent(s.href, path) then Some("page") else s.ariaCurrent)
    ensures r.(ariaCurrent := s.ariaCurrent) == s
  {
    if IsCurrent(s.href, path) then s.(ariaCurrent := Some("page")) else s
  }

  /** `markActiveNav()`: sets `aria-current="page"` on every navigation link to this page and
      changes nothing else. */
  method MarkActiveNav(links: seq<NavLink>, pathname: string)
    requires Distinct(links)
    modifies set l | l in links
    ensures forall k :: 0 <= k < |links| ==> links[k].State() == Marked(old(links[k].State()), PageName(pathname))
  {
    MarkAll(links, PageName(pathname));
  }

  /** The `forEach` loop of `markActiveNav` over the links, for the page name `path`. */
  method MarkAll(links: seq<NavLink>, path: string)
    requires Distinct(links)
    modifies set l | l in links
    ensures forall k :: 0 <= k < |links| ==> links[k].State() == Marked(old(links[k].State()), path)
  {
    var i := 0;
    while i < |links|
      invariant 0 <= i <= |links|
      invariant forall k :: 0 <= k < i ==> links[k].State() == Marked(old(links[k].State()), path)
      invariant forall k :: i <= k < |links| ==> links[k].State() == old(links[k].State())
    {
      var a := links[i];
      a.MarkIfCurrent(path);
      assert forall k :: 0 <= k < |links| && k != i ==> links[k] != a;
      i := i + 1;
    }
  }

  // ---------------------------------------------------------------- the badge on one link

  /** The label `addAnnouncementsBadge` starts from: the `aria-label` when it is not empty,
      otherwise the trimmed text. */
  function BaseLabel(s: LinkState): string {
    if s.ariaLabel.Some? && s.ariaLabel.value != "" then s.ariaLabel.value else Trim(s.text)
  }

  /** `label.replace(/\s*\(new\)$/i, '')`: the result is a prefix of the caption, it differs from
      the caption exactly when the caption ends in "(new)" in some letter case, and then only that
      suffix and the blanks before it are gone, so the result does not end in a blank. */
  function StripNewSuffix(caption: string): (r: string)
    ensures |r| <= |caption| && caption[..|r|] == r
    ensures r != caption <==> EndsWithIgnoreCase(caption, "(new)")
    ensures EndsWithIgnoreCase(caption, "(new)") ==>
              |r| <= |caption| - 5 && (r == [] || !IsSpace(r[|r| - 1]))
              && forall i :: |r| <= i < |caption| - 5 ==> IsSpace(caption[i])
  {
    if EndsWithIgnoreCase(caption, "(new)") then
      var head := caption[..|caption| - 5];
      TrimEndPrefix(head);
      assert caption[..|TrimEnd(head)|] == head[..|TrimEnd(head)|];
      TrimEnd(head)
    else caption
  }

  /** A caption that does not end in "new)" does not end in "(new)" either, so the replacement
      `addAnnouncementsBadge` applies before appending " (new)" never changes anything. */
  lemma StripNewSuffixNoOp(caption: string)
    requires !EndsWithIgnoreCase(caption, "new)")
    ensures StripNewSuffix(caption) == caption
  {
  }

  /** `addAnnouncementsBadge`: adds the class, adds a dot unless there is one, and appends
      " (new)" to the base label unless it already ends in "new)" in any letter case. */
  function Added(s: LinkState): (r: LinkState)
    ensures r.hasBadge && r.dots >= 1
    ensures r.href == s.href && r.text == s.text && r.ariaCurrent == s.ariaCurrent
  {
    var base := BaseLabel(s);
    s.(hasBadge := true,
       dots := (if s.dots == 0 then 1 else s.dots),
       ariaLabel := (if EndsWithIgnoreCase(base, "new)") then s.ariaLabel else Some(StripNewSuffix(base) + " (new)")))
  }

  /** `removeAnnouncementsBadge`: removes the class and the first dot, and resets the label to
      the trimmed text. */
  function Removed(s: LinkState): (r: LinkState)
    ensures !r.hasBadge && r.ariaLabel == Some(Trim(s.text))
    ensures r.dots == if s.dots == 0 then 0 else s.dots - 1
    ensures r.href == s.href && r.text == s.text && r.ariaCurrent == s.ariaCurrent
  {
    s.(hasBadge := false, dots := (if s.dots > 0 then s.dots - 1 else 0), ariaLabel := Some(Trim(s.text)))
  }

  /** After adding the badge the label ends in "new)": either it did already and is kept, or
      " (new)" was appended to the base label unchanged. A link without a dot gets exactly one. */
  lemma AddedLabel(s: LinkState)
    ensures EndsWithIgnoreCase(BaseLabel(Added(s)), "new)")
    ensures !EndsWithIgnoreCase(BaseLabel(s), "new)") ==> Added(s).ariaLabel == Some(BaseLabel(s) + " (new)")
    ensures EndsWithIgnoreCase(BaseLabel(s), "new)") ==> Added(s).ariaLabel == s.ariaLabel
    ensures s.dots <= 1 ==> Added(s).dots == 1
  {
    var base := BaseLabel(s);
    if !EndsWithIgnoreCase(base, "new)") {
      StripNewSuffixNoOp(base);
      var l := base + " (new)";
      assert l[|l| - 4..] == "new)";
      assert ToLower("new)") == "new)";
    }
  }

  /** Adding the badge twice is adding it once. */
  lemma AddIdempotent(s: LinkState)
    ensures Added(Added(s)) == Added(s)
  {
    AddedLabel(s);
  }

  /** Removing the badge twice is removing it once, for a link with at most one dot, which is
      every link the script itself has touched. */
  lemma RemoveIdempotent(s: LinkState)
    requires s.dots <= 1
    ensures Removed(Removed(s)) == Removed(s)
    ensures Removed(s).dots == 0
  {
  }

  // ---------------------------------------------------------------- the latest announcement date

  /** `(it && it.date) ? String(it.date) : ''`. */
  function ItemDate(it: Json): (r: string)
    ensures r != "" ==> it.Obj? && "date" in it.fields
    ensures it.Obj? && "date" in it.fields && it.fields["date"].Str? ==> r == it.fields["date"].s
  {
    if Truthy(it) && Truthy(Field(it, "date")) then ToStr(Field(it, "date")) else ""
  }

  /** The scan's step: a non-empty date that sorts after the current latest replaces it. */
  function Step(latest: string, d: string): string {
    if d != "" && Less(latest, d) then d else latest
  }

  /** What the `for ... of` loop leaves in `latest`. */
  function LatestOf(items: seq<Json>): string {
    if items == [] then "" else Step(LatestOf(items[..|items| - 1]), ItemDate(items[|items| - 1]))
  }

  /** The scan finds the greatest non-empty date in string order: it is one of the dates, no
      date sorts after it, and it is empty exactly when no item has a date. */
  lemma {:induction false} LatestIsMaximum(items: seq<Json>)
    ensures forall i :: 0 <= i < |items| ==> !Less(LatestOf(items), ItemDate(items[i]))
    ensures LatestOf(items) == "" <==> forall i :: 0 <= i < |items| ==> ItemDate(items[i]) == ""
    ensures LatestOf(items) != "" ==> exists i :: 0 <= i < |items| && LatestOf(items) == ItemDate(items[i])
  {
    if items != [] {
      var init := items[..|items| - 1];
      var d := ItemDate(items[|items| - 1]);
      var prev := LatestOf(init);
      LatestIsMaximum(init);
      var cur := LatestOf(items);
      assert cur == Step(prev, d);
      forall i | 0 <= i < |items| ensures !Less(cur, ItemDate(items[i])) {
        if i < |items| - 1 {
          assert items[i] == init[i];
          if cur != prev && Less(cur, ItemDate(items[i])) {
            LessTransitive(prev, cur, ItemDate(items[i]));
          }
        } else if cur != d {
          LessTrichotomy(prev, d);
        } else {
          LessIrreflexive(d);
        }
      }
      if cur == "" {
        assert d == "" && prev == "";
        forall i | 0 <= i < |items| ensures ItemDate(items[i]) == "" {
          if i < |items| - 1 {
            assert items[i] == init[i];
          }
        }
      } else if cur == d {
        assert cur == ItemDate(items[|items| - 1]);
      } else {
        var k :| 0 <= k < |init| && prev == ItemDate(init[k]);
        assert items[k] == init[k];
      }
      if cur != "" {
        if d != "" {
          assert ItemDate(items[|items| - 1]) != "";
        } else {
          var k :| 0 <= k < |init| && prev == ItemDate(init[k]);
          assert items[k] == init[k];
          assert ItemDate(items[k]) != "";
        }
      }
    }
  }

  /** The `for ... of` loop of `initAnnouncementsBadge`. */
  method LatestDate(items: seq<Json>) returns (latest: string)
    ensures latest == LatestOf(items)
  {
    latest := "";
    for i := 0 to |items|
      invariant latest == LatestOf(items[..i])
    {
      var it := items[i];
      var d := if Truthy(it) && Truthy(Field(it, "date")) then ToStr(Field(it, "date")) else "";
      if d != "" && Less(latest, d) {
        latest := d;
      }
      assert items[..i + 1][..i] == items[..i];
    }
    assert items[..|items|] == items;
  }

  // ---------------------------------------------------------------- the badge decision

  /** What `initAnnouncementsBadge` does once it has found the announcements link. */
  datatype BadgeEffect =
    | Untouched            // returned early or caught an exception: nothing changes
    | Seen(latest: string) // on the announcements page: store `latest`, remove the badge
    | Shown                // elsewhere, with a newer announcement: add the badge
    | Hidden               // elsewhere, nothing newer: remove the badge

  /** `localStorage.getItem(LS_KEY) || ''`. */
  function LastSeenOr(stored: Option<string>): string {
    match stored
    case None => ""
    case Some(v) => v
  }

  /** The decision, given the page name, the stored date and the outcome of fetching the list. */
  function BadgeDecision(page: string, lastSeen: Option<string>, fetched: Result<Response>): (r: BadgeEffect)
    ensures r.Seen? ==> page == AnnouncementsPage
    ensures r.Shown? || r.Hidden? ==> page != AnnouncementsPage
    ensures !r.Untouched? ==>
              fetched.Ok? && fetched.value.ok && fetched.value.json.Ok? && fetched.value.json.value.Arr?
              && var latest := LatestOf(fetched.value.json.value.items);
                 latest != ""
                 && (r.Seen? ==> r.latest == latest)
                 && (r.Shown? ==> Less(LastSeenOr(lastSeen), latest))
                 && (r.Hidden? ==> !Less(LastSeenOr(lastSeen), latest))
  {
    if fetched.Err? || !fetched.value.ok || fetched.value.json.Err? then Untouched
    else
      var items := fetched.value.json.value;
      if !items.Arr? || items.items == [] then Untouched
      else
        var latest := LatestOf(items.items);
        if latest == "" then Untouched
        else if page == AnnouncementsPage then Seen(latest)
        else if Less(LastSeenOr(lastSeen), latest) then Shown
        else Hidden
  }

  /** The effect of a decision on the announcements link. */
  function Effect(e: BadgeEffect, s: LinkState): LinkState {
    match e
    case Untouched => s
    case Seen(_) => Removed(s)
    case Shown => Added(s)
    case Hidden => Removed(s)
  }

  /** The list the decision reads: the parsed body of an ok response, if it is an array with at
      least one item whose date is not empty. */
  predicate HasDatedList(fetched: Result<Response>) {
    fetched.Ok? && fetched.value.ok && fetched.value.json.Ok? && fetched.value.json.value.Arr?
    && exists i :: 0 <= i < |fetched.value.json.value.items| && ItemDate(fetched.value.json.value.items[i]) != ""
  }

  /** A failed or not-ok fetch, a body that is not JSON or not an array, an empty array, or a
      list in which no item has a date all leave everything as it was. */
  lemma BadgeUntouched(page: string, lastSeen: Option<string>, fetched: Result<Response>)
    ensures !HasDatedList(fetched) <==> BadgeDecision(page, lastSeen, fetched) == Untouched
  {
    if fetched.Ok? && fetched.value.ok && fetched.value.json.Ok? && fetched.value.json.value.Arr? {
      LatestIsMaximum(fetched.value.json.value.items);
    }
  }

  /** On the announcements page the latest date is stored and the badge removed, whatever was
      stored before. */
  lemma BadgeOnAnnouncementsPage(lastSeen: Option<string>, fetched: Result<Response>)
    requires HasDatedList(fetched)
    ensures var e := BadgeDecision(AnnouncementsPage, lastSeen, fetched);
            var items := fetched.value.json.value.items;
            e.Seen? && e.latest != ""
            && (exists i :: 0 <= i < |items| && e.latest == ItemDate(items[i]))
            && (forall i :: 0 <= i < |items| ==> !Less(e.latest, ItemDate(items[i])))
  {
    LatestIsMaximum(fetched.value.json.value.items);
  }

  /** Elsewhere the badge is shown exactly when some date sorts after the stored one (a missing
      entry counting as the empty string), and removed otherwise. */
  lemma BadgeElsewhere(page: string, lastSeen: Option<string>, fetched: Result<Response>)
    requires page != AnnouncementsPage && HasDatedList(fetched)
    ensures var e := BadgeDecision(page, lastSeen, fetched);
            var items := fetched.value.json.value.items;
            (e == Shown <==> exists i :: 0 <= i < |items| && Less(LastSeenOr(lastSeen), ItemDate(items[i])))
            && (e == Shown || e == Hidden)
  {
    var items := fetched.value.json.value.items;
    var latest := LatestOf(items);
    var seen := LastSeenOr(lastSeen);
    LatestIsMaximum(items);
    if exists i :: 0 <= i < |items| && Less(seen, ItemDate(items[i])) {
      var i :| 0 <= i < |items| && Less(seen, ItemDate(items[i]));
      if !Less(seen, latest) {
        LessTrichotomy(seen, latest);
        if seen != latest {
          LessTransitive(latest, seen, ItemDate(items[i]));
        }
      }
    }
  }

  /** After a visit to the announcements page, the same list shows no badge anywhere, and a
      later list shows it only when it holds a strictly later date. */
  lemma NoBadgeUntilNewer(page: string, seenBefore: Option<string>, visited: Result<Response>,
                          later: Result<Response>)
    requires BadgeDecision(AnnouncementsPage, seenBefore, visited).Seen?
    requires page != AnnouncementsPage
    ensures var stored := Some(BadgeDecision(AnnouncementsPage, seenBefore, visited).latest);
            BadgeDecision(page, stored, visited) == Hidden
            && (BadgeDecision(page, stored, later) == Shown ==>
                  exists i :: 0 <= i < |later.value.json.value.items|
                              && Less(stored.value, ItemDate(later.value.json.value.items[i])))
  {
    var stored := BadgeDecision(AnnouncementsPage, seenBefore, visited).latest;
    LessIrreflexive(stored);
    if BadgeDecision(page, Some(stored), later) == Shown {
      BadgeUntouched(page, Some(stored), later);
      BadgeElsewhere(page, Some(stored), later);
    }
  }

  // ---------------------------------------------------------------- the whole routine

  /** The first link whose href ends in "announcements.html", as the selector
      `a[href$="announcements.html"]` finds it. */
  function AnnouncementsLink(hrefs: seq<string>): (r: Option<nat>)
    ensures r.Some? ==> r.value < |hrefs| && EndsWith(hrefs[r.value], AnnouncementsPage)
                        && forall j :: 0 <= j < r.value ==> !EndsWith(hrefs[j], AnnouncementsPage)
    ensures r.None? ==> forall j :: 0 <= j < |hrefs| ==> !EndsWith(hrefs[j], AnnouncementsPage)
  {
    if hrefs == [] then None
    else if EndsWith(hrefs[0], AnnouncementsPage) then Some(0)
    else match AnnouncementsLink(hrefs[1..])
      case None => None
      case Some(k) => Some(k + 1)
  }

  /** The part of `initAnnouncementsBadge` after the announcements link was found: `fetched` is
      the outcome of requesting the list; the decision is applied to local storage and the link. */
  method ApplyBadge(annLink: NavLink, storage: Storage, page: string, fetched: Result<Response>)
    modifies annLink, storage
    ensures var e := BadgeDecision(page, old(storage.lastSeen), fetched);
            storage.lastSeen == (if e.Seen? then Some(e.latest) else old(storage.lastSeen))
            && annLink.State() == Effect(e, old(annLink.State()))
  {
    if fetched.Err? || !fetched.value.ok || fetched.value.json.Err? {
      return;
    }
    var items := fetched.value.json.value;
    if !items.Arr? || |items.items| == 0 {
      return;
    }
    var latest := LatestDate(items.items);
    if latest == "" {
      return;
    }
    if page == AnnouncementsPage {
      storage.lastSeen := Some(latest);
      annLink.RemoveBadge();
      return;
    }
    var lastSeen := LastSeenOr(storage.lastSeen);
    if Less(lastSeen, latest) {
      annLink.AddBadge();
    } else {
      annLink.RemoveBadge();
    }
  }

  /** `initAnnouncementsBadge()`. Without an announcements link nothing is requested and nothing
      changes; otherwise the list is requested, `fetched` is the outcome, and the decision is
      applied to local storage and to that link alone. Returns whether the list was requested. */
  method InitBadge(links: seq<NavLink>, storage: Storage, pathname: string, fetched: Result<Response>)
    returns (requested: bool)
    requires Distinct(links)
    modifies storage, set l | l in links
    ensures var idx := AnnouncementsLink(old(Hrefs(links)));
            var e := if idx.Some? then BadgeDecision(PageName(pathname), old(storage.lastSeen), fetched) else Untouched;
            requested == idx.Some?
            && storage.lastSeen == (if e.Seen? then Some(e.latest) else old(storage.lastSeen))
            && forall k :: 0 <= k < |links| ==>
                 links[k].State() == (if idx == Some(k) then Effect(e, old(links[k].State())) else old(links[k].State()))
  {
    var idx := AnnouncementsLink(Hrefs(links));
    if idx.None? {
      return false;
    }
    var annLink := links[idx.value];
    ApplyBadge(annLink, storage, PageName(pathname), fetched);
    assert forall k :: 0 <= k < |links| && k != idx.value ==> links[k] != annLink;
    requested := true;
  }
}
