/**
 Archiving a resolved proposal and its event: both pages move down a folder, their own links are shifted,
 and links to them from other pages are computed anew. Paths are lists of names from the root.
 */
module ArchiveLinks {
  import opened Outcomes

  type Path = seq<string>

  /** A fragment follows the path of a relative link; anchors and URLs have no path. */
  datatype Href = Url(url: string) | Anchor(name: string) | Absolute(path: Path) | Relative(path: Path, fragment: string)

  datatype Piece = Prose(text: string) | Link(title: string, href: Href)

  type Page = seq<Piece>

  type Pages = map<Path, Page>

  // ----- resolving --------------------------------------------------------------------------

  predicate Plain(s: string) { s != "" && s != "." && s != ".." }

  predicate AllPlain(p: Path) { forall i :: 0 <= i < |p| ==> Plain(p[i]) }

  function Parent(p: Path): Path { if p == [] then [] else p[..|p| - 1] }

  function Enter(dir: Path, s: string): Path {
    if Plain(s) then dir + [s] else if s == ".." then Parent(dir) else dir
  }

  function Resolve(dir: Path, path: Path): Path
    decreases |path|
  {
    if path == [] then dir else Resolve(Enter(dir, path[0]), path[1..])
  }

  /** What a link names, for the links that name a path relative to their page. */
  function Target(page: Path, href: Href): Option<Path> {
    if href.Relative? then Some(Resolve(Parent(page), href.path)) else None
  }

  /** Whether a path goes above where it starts; `depth` is how far below that it is already. */
  predicate Climbs(path: Path, depth: nat) {
    path != [] &&
    if Plain(path[0]) then Climbs(path[1..], depth + 1)
    else if path[0] != ".." then Climbs(path[1..], depth)
    else depth == 0 || Climbs(path[1..], depth - 1)
  }

  /** From two sibling folders a path leads to one place exactly when it climbs out of them. */
  lemma {:induction false} SiblingsAgree(dir: Path, x: string, y: string, below: Path, path: Path)
    requires x != y
    ensures Resolve(dir + [x] + below, path) == Resolve(dir + [y] + below, path) <==> Climbs(path, |below|)
    decreases |path|
  {
    var a, b := dir + [x] + below, dir + [y] + below;
    if path == [] {
      assert a[|dir|] != b[|dir|];
    } else if Plain(path[0]) {
      assert a + [path[0]] == dir + [x] + (below + [path[0]]);
      assert b + [path[0]] == dir + [y] + (below + [path[0]]);
      SiblingsAgree(dir, x, y, below + [path[0]], path[1..]);
    } else if path[0] != ".." {
      SiblingsAgree(dir, x, y, below, path[1..]);
    } else if below != [] {
      assert Parent(a) == dir + [x] + Parent(below) && Parent(b) == dir + [y] + Parent(below);
      SiblingsAgree(dir, x, y, Parent(below), path[1..]);
    } else {
      assert Parent(a) == dir == Parent(b);
    }
  }

  // ----- computing a relative path ----------------------------------------------------------

  function Common(a: Path, b: Path): (n: nat)
    ensures n <= |a| && n <= |b| && a[..n] == b[..n]
  {
    if a == [] || b == [] || a[0] != b[0] then 0
    else
      var n := Common(a[1..], b[1..]);
      assert a[..n + 1] == [a[0]] + a[1..][..n] && b[..n + 1] == [b[0]] + b[1..][..n];
      n + 1
  }

  function Ups(n: nat): (p: Path)
    ensures |p| == n
  {
    if n == 0 then [] else [".."] + Ups(n - 1)
  }

  function RelativePath(from: Path, to: Path): Path {
    Ups(|from| - Common(from, to)) + to[Common(from, to)..]
  }

  lemma {:induction false} ResolvePlain(dir: Path, path: Path)
    requires AllPlain(path)
    ensures Resolve(dir, path) == dir + path
    decreases |path|
  {
    if path == [] {
      assert dir + path == dir;
    } else {
      ResolvePlain(dir + [path[0]], path[1..]);
      assert dir + [path[0]] + path[1..] == dir + path;
    }
  }

  lemma ResolveUp(dir: Path, path: Path)
    ensures Resolve(dir, [".."] + path) == Resolve(Parent(dir), path)
  {
    assert ([".."] + path)[1..] == path;
  }

  lemma {:induction false} ResolveUps(dir: Path, n: nat, rest: Path)
    requires n <= |dir|
    ensures Resolve(dir, Ups(n) + rest) == Resolve(dir[..|dir| - n], rest)
    decreases n
  {
    hide Resolve;
    if n == 0 {
      assert Ups(n) + rest == rest && dir[..|dir|] == dir;
    } else {
      ResolveUps(Parent(dir), n - 1, rest);
      ResolveUp(dir, Ups(n - 1) + rest);
      assert Ups(n) + rest == [".."] + (Ups(n - 1) + rest);
      assert Parent(dir)[..|dir| - n] == dir[..|dir| - n];
    }
  }

  /** The path computed from one place to another leads there. */
  lemma RelativePathLeads(from: Path, to: Path)
    requires AllPlain(to)
    ensures Resolve(from, RelativePath(from, to)) == to
  {
    var n := Common(from, to);
    ResolveUps(from, |from| - n, to[n..]);
    ResolvePlain(from[..n], to[n..]);
    assert to == to[..n] + to[n..];
  }

  lemma {:induction false} LastOfResolved(dir: Path, path: Path)
    requires path != [] && Plain(path[|path| - 1])
    ensures Resolve(dir, path) != [] && Resolve(dir, path)[|Resolve(dir, path)| - 1] == path[|path| - 1]
    decreases |path|
  {
    if |path| > 1 {
      LastOfResolved(Enter(dir, path[0]), path[1..]);
    } else {
      assert Resolve(Enter(dir, path[0]), path[1..]) == dir + [path[0]];
    }
  }

  /** Empty parts and single dots lead nowhere, any other name leads into it, and double dots undo the name before. */
  lemma ResolveSkips(dir: Path, name: string, path: Path)
    requires name != "" && name != "." && name != ".."
    ensures Resolve(dir, [""] + path) == Resolve(dir, path) == Resolve(dir, ["."] + path)
    ensures Resolve(dir, [name] + path) == Resolve(dir + [name], path)
    ensures Resolve(dir, [name] + ([".."] + path)) == Resolve(dir, path)
  {
    assert ([name] + path)[1..] == path;
    assert ([""] + path)[1..] == path && (["."] + path)[1..] == path;
    assert ([name] + ([".."] + path))[1..] == [".."] + path;
    ResolveUp(dir + [name], path);
    assert Parent(dir + [name]) == dir;
  }

  /** How far apart two places are: up to the folder they share, and down again. */
  function Distance(a: Path, b: Path): nat { |a| - Common(a, b) + |b| - Common(a, b) }

  lemma {:induction false} CommonOfParent(a: Path, b: Path)
    requires a != []
    ensures Common(a[..|a| - 1], b) == if Common(a, b) < |a| then Common(a, b) else |a| - 1
  {
    if |a| > 1 && b != [] && a[0] == b[0] {
      CommonOfParent(a[1..], b[1..]);
      assert a[..|a| - 1][1..] == a[1..][..|a| - 2];
    }
  }

  /** One step changes the distance by one at most. */
  lemma StepDistance(dir: Path, s: string, to: Path)
    ensures Distance(dir, to) <= Distance(Enter(dir, s), to) + 1
  {
    if Plain(s) {
      var down := dir + [s];
      CommonOfParent(down, to);
      assert down[..|down| - 1] == dir;
    } else if s == ".." && dir != [] {
      CommonOfParent(dir, to);
    }
  }

  lemma {:induction false} CommonOfSame(a: Path)
    ensures Common(a, a) == |a|
  {
    if a != [] { CommonOfSame(a[1..]); }
  }

  /** No path that leads there is shorter than the computed one. */
  lemma {:induction false} RelativePathShortest(from: Path, to: Path, path: Path)
    requires Resolve(from, path) == to
    ensures |RelativePath(from, to)| <= |path|
    decreases |path|
  {
    if path == [] {
      CommonOfSame(to);
    } else {
      RelativePathShortest(Enter(from, path[0]), to, path[1..]);
      StepDistance(from, path[0], to);
    }
  }

  // ----- moving one page --------------------------------------------------------------------

  /** One more step up in front of every link, except URLs and anchors. */
  function ShiftHref(h: Href): Href {
    match h
    case Url(_) => h
    case Anchor(_) => h
    case Absolute(p) => Relative([".."] + [""] + p, "")
    case Relative(p, f) => Relative([".."] + p, f)
  }

  function ShiftPage(page: Page): (r: Page)
    ensures |r| == |page|
  {
    seq(|page|, i requires 0 <= i < |page| =>
      if page[i].Link? then page[i].(href := ShiftHref(page[i].href)) else page[i])
  }

  /** A link is pointed to the new place when it is written with the page's name and resolves to the old place. */
  function RewriteHref(page: Path, h: Href, src: Path, dst: Path): Href {
    if h.Relative? && src != [] && h.path != [] && h.path[|h.path| - 1] == src[|src| - 1] && Target(page, h) == Some(src) then
      Relative(RelativePath(Parent(page), dst), h.fragment)
    else h
  }

  function RewritePage(at: Path, page: Page, src: Path, dst: Path): (r: Page)
    ensures |r| == |page|
  {
    seq(|page|, i requires 0 <= i < |page| =>
      if page[i].Link? then page[i].(href := RewriteHref(at, page[i].href, src, dst)) else page[i])
  }

  /** All the pages after one moves: itself shifted, every other rewritten. */
  function Moved(pages: Pages, src: Path, dst: Path): Pages
    requires src in pages
  {
    map p | p in pages.Keys - {src} + {dst} ::
      if p == dst then ShiftPage(pages[src]) else RewritePage(p, pages[p], src, dst)
  }

  class Wiki {
    var pages: Pages

    constructor (pages: Pages)
      ensures this.pages == pages
    {
      this.pages := pages;
    }

    /** The move and the rewriting of links from other pages, one page at a time. */
    method MovePage(src: Path, dst: Path)
      requires src in pages && dst !in pages
      modifies this
      ensures pages == Moved(old(pages), src, dst)
    {
      var body := ShiftPage(pages[src]);
      pages := pages - {src};
      var todo := pages.Keys;
      pages := pages[dst := body];
      ghost var before := old(pages);
      while todo != {}
        invariant todo <= before.Keys - {src} && pages.Keys == before.Keys - {src} + {dst}
        invariant pages[dst] == ShiftPage(before[src])
        invariant forall p :: p in before && p != src ==>
                    pages[p] == if p in todo then before[p] else RewritePage(p, before[p], src, dst)
      {
        var p :| p in todo;
        pages := pages[p := RewritePage(p, pages[p], src, dst)];
        todo := todo - {p};
      }
    }

    /** Nothing moves unless both destinations are free. */
    method ArchiveOne(dir: Path, proposal: string, event: Option<string>) returns (done: bool)
      requires dir + [proposal] in pages
      requires event.Some? ==> dir + [EVENTS_DIR, event.value] in pages
      modifies this
      ensures var taken := dir + [ARCHIVE_DIR, proposal] in old(pages)
                           || (event.Some? && dir + [ARCHIVE_DIR, EVENTS_DIR, event.value] in old(pages));
              && done == !taken
              && pages == if taken then old(pages) else Archived(old(pages), dir, proposal, event)
    {
      DistinctPlaces(dir, proposal, if event.Some? then event.value else "");
      if dir + [ARCHIVE_DIR, proposal] in pages {
        return false;
      }
      if event.Some? && dir + [ARCHIVE_DIR, EVENTS_DIR, event.value] in pages {
        return false;
      }
      MovePage(dir + [proposal], dir + [ARCHIVE_DIR, proposal]);
      if event.Some? {
        MovePage(dir + [EVENTS_DIR, event.value], dir + [ARCHIVE_DIR, EVENTS_DIR, event.value]);
      }
      return true;
    }
  }

  const ARCHIVE_DIR := "archive"

  const EVENTS_DIR := "events"

  lemma DistinctPlaces(dir: Path, proposal: string, event: string)
    ensures dir + [EVENTS_DIR, event] != dir + [proposal] && dir + [ARCHIVE_DIR, EVENTS_DIR, event] != dir + [ARCHIVE_DIR, proposal]
    ensures dir + [EVENTS_DIR, event] != dir + [ARCHIVE_DIR, proposal]
  {
    assert (dir + [EVENTS_DIR, event])[|dir|] != (dir + [ARCHIVE_DIR, proposal])[|dir|];
    assert |dir + [EVENTS_DIR, event]| != |dir + [proposal]|;
  }

  function Archived(pages: Pages, dir: Path, proposal: string, event: Option<string>): Pages
    requires dir + [proposal] in pages
    requires event.Some? ==> dir + [EVENTS_DIR, event.value] in pages
  {
    DistinctPlaces(dir, proposal, if event.Some? then event.value else "");
    var first := Moved(pages, dir + [proposal], dir + [ARCHIVE_DIR, proposal]);
    if event.None? then first
    else Moved(first, dir + [EVENTS_DIR, event.value], dir + [ARCHIVE_DIR, EVENTS_DIR, event.value])
  }

  // ----- what happens to targets ------------------------------------------------------------

  lemma TargetShifted(dir: Path, x: string, name: string, h: Href)
    requires h.Relative?
    ensures Target(dir + [x, name], ShiftHref(h)) == Some(Resolve(dir, h.path))
  {
    var page := dir + [x, name];
    assert Parent(page) == dir + [x];
    assert Parent(dir + [x]) == dir;
    assert ([".."] + h.path)[1..] == h.path;
  }

  /** Moved down one folder, a link keeps its target exactly when it is not an absolute path. */
  lemma ProposalLinkKept(dir: Path, name: string, h: Href)
    ensures Target(dir + [ARCHIVE_DIR, name], ShiftHref(h)) == Target(dir + [name], h) <==> !h.Absolute?
  {
    assert Parent(dir + [name]) == dir;
    if h.Relative? {
      TargetShifted(dir, ARCHIVE_DIR, name, h);
    }
  }

  /** An absolute one is then read from the folder above. */
  lemma AbsoluteLinkMoved(dir: Path, name: string, path: Path)
    ensures Target(dir + [ARCHIVE_DIR, name], ShiftHref(Absolute(path))) == Some(Resolve(dir, path))
  {
    var page := dir + [ARCHIVE_DIR, name];
    assert Parent(page) == dir + [ARCHIVE_DIR] && Parent(dir + [ARCHIVE_DIR]) == dir;
    assert [".."] + [""] + path == [".."] + ([""] + path);
    ResolveUp(dir + [ARCHIVE_DIR], [""] + path);
    ResolveSkips(dir, ARCHIVE_DIR, path);
  }

  /** Moved from one events folder to another, it does so exactly when it climbs out of the folder. */
  lemma EventLinkKept(dir: Path, name: string, h: Href)
    ensures Target(dir + [ARCHIVE_DIR, EVENTS_DIR, name], ShiftHref(h)) == Target(dir + [EVENTS_DIR, name], h) <==>
            (!h.Absolute? && (h.Relative? ==> Climbs(h.path, 0)))
  {
    assert Parent(dir + [EVENTS_DIR, name]) == dir + [EVENTS_DIR] + [];
    assert dir + [ARCHIVE_DIR, EVENTS_DIR, name] == dir + [ARCHIVE_DIR] + [EVENTS_DIR, name];
    if h.Relative? {
      TargetShifted(dir + [ARCHIVE_DIR], EVENTS_DIR, name, h);
      assert dir + [ARCHIVE_DIR] == dir + [ARCHIVE_DIR] + [];
      SiblingsAgree(dir, EVENTS_DIR, ARCHIVE_DIR, [], h.path);
    }
  }

  function Redirected(t: Option<Path>, src: Path, dst: Path): Option<Path> { if t == Some(src) then Some(dst) else t }

  /** A link written with a name at its end, as links to pages are. */
  predicate NamesAPage(h: Href) { h.Relative? ==> h.path != [] && Plain(h.path[|h.path| - 1]) }

  /**
   From any other page, a link to the moved page follows it if it is written with a name at its end, and every other
   link keeps its target.
   */
  lemma InboundLinkFollows(page: Path, h: Href, src: Path, dst: Path)
    requires AllPlain(src) && AllPlain(dst)
    ensures Target(page, RewriteHref(page, h, src, dst))
         == if NamesAPage(h) then Redirected(Target(page, h), src, dst) else Target(page, h)
  {
    if h.Relative? && NamesAPage(h) {
      LastOfResolved(Parent(page), h.path);
      RelativePathLeads(Parent(page), dst);
    }
  }

  /** Where a page is after archiving. */
  function Place(p: Path, dir: Path, proposal: string, event: Option<string>): Path {
    if p == dir + [proposal] then dir + ["archive", proposal]
    else if event.Some? && p == dir + ["events", event.value] then dir + ["archive", "events", event.value]
    else p
  }

  function PlaceOf(t: Option<Path>, dir: Path, proposal: string, event: Option<string>): Option<Path> {
    if t.Some? then Some(Place(t.value, dir, proposal, event)) else None
  }

  /** One link through both moves, from a page at `p`. */
  function LinkAfter(p: Path, h: Href, dir: Path, proposal: string, event: Option<string>): Href {
    var src, dst := dir + [proposal], dir + [ARCHIVE_DIR, proposal];
    var q := if p == src then dst else p;
    var first := if p == src then ShiftHref(h) else RewriteHref(p, h, src, dst);
    if event.None? then first
    else if q == dir + [EVENTS_DIR, event.value] then ShiftHref(first)
    else RewriteHref(q, first, dir + [EVENTS_DIR, event.value], dir + [ARCHIVE_DIR, EVENTS_DIR, event.value])
  }

  /** The pages are read back link by link. */
  lemma LinksAfter(pages: Pages, dir: Path, proposal: string, event: Option<string>, p: Path, k: nat)
    requires dir + [proposal] in pages && dir + [ARCHIVE_DIR, proposal] !in pages
    requires event.Some? ==>
               dir + [EVENTS_DIR, event.value] in pages && dir + [ARCHIVE_DIR, EVENTS_DIR, event.value] !in pages
    requires p in pages && k < |pages[p]| && pages[p][k].Link?
    ensures var after, q := Archived(pages, dir, proposal, event), Place(p, dir, proposal, event);
            q in after && |after[q]| == |pages[p]| &&
            after[q][k] == Link(pages[p][k].title, LinkAfter(p, pages[p][k].href, dir, proposal, event))
  {
    DistinctPlaces(dir, proposal, if event.Some? then event.value else "");
  }

  /** A link that is only moved or redirected: its kind, and the fragment of a relative one, stay. */
  predicate SameKind(h: Href, after: Href) {
    match h
    case Url(_) => after == h
    case Anchor(_) => after == h
    case Absolute(_) => after == h || (after.Relative? && after.fragment == "")
    case Relative(_, fragment) => after.Relative? && after.fragment == fragment
  }

  lemma KindKept(p: Path, h: Href, dir: Path, proposal: string, event: Option<string>)
    ensures SameKind(h, LinkAfter(p, h, dir, proposal, event))
  {
  }

  lemma ProseKept(pages: Pages, dir: Path, proposal: string, event: Option<string>, p: Path, k: nat)
    requires dir + [proposal] in pages && dir + [ARCHIVE_DIR, proposal] !in pages
    requires event.Some? ==>
               dir + [EVENTS_DIR, event.value] in pages && dir + [ARCHIVE_DIR, EVENTS_DIR, event.value] !in pages
    requires p in pages && k < |pages[p]| && pages[p][k].Prose?
    ensures var after, q := Archived(pages, dir, proposal, event), Place(p, dir, proposal, event);
            q in after && |after[q]| == |pages[p]| && after[q][k] == pages[p][k]
  {
    hide ShiftHref, RewriteHref;
    DistinctPlaces(dir, proposal, if event.Some? then event.value else "");
  }

  /** Everything but the paths of links: the prose, the titles, the URLs and the fragments are as they were. */
  lemma ContentsAfter(pages: Pages, dir: Path, proposal: string, event: Option<string>, p: Path, k: nat)
    requires dir + [proposal] in pages && dir + [ARCHIVE_DIR, proposal] !in pages
    requires event.Some? ==>
               dir + [EVENTS_DIR, event.value] in pages && dir + [ARCHIVE_DIR, EVENTS_DIR, event.value] !in pages
    requires p in pages && k < |pages[p]|
    ensures var after, q := Archived(pages, dir, proposal, event), Place(p, dir, proposal, event);
            && q in after && |after[q]| == |pages[p]|
            && match pages[p][k]
               case Prose(_) => after[q][k] == pages[p][k]
               case Link(title, h) => after[q][k].Link? && after[q][k].title == title && SameKind(h, after[q][k].href)
  {
    hide Archived, Place, LinkAfter;
    if pages[p][k].Link? {
      LinksAfter(pages, dir, proposal, event, p, k);
      KindKept(p, pages[p][k].href, dir, proposal, event);
    } else {
      ProseKept(pages, dir, proposal, event, p, k);
    }
  }

  /** No page is lost or made: each place after archiving is that of one page before. */
  lemma PagesAfter(pages: Pages, dir: Path, proposal: string, event: Option<string>, q: Path)
    requires dir + [proposal] in pages && dir + [ARCHIVE_DIR, proposal] !in pages
    requires event.Some? ==>
               dir + [EVENTS_DIR, event.value] in pages && dir + [ARCHIVE_DIR, EVENTS_DIR, event.value] !in pages
    ensures q in Archived(pages, dir, proposal, event) <==>
              exists p :: p in pages && Place(p, dir, proposal, event) == q
  {
    hide ShiftPage, RewritePage;
    DistinctPlaces(dir, proposal, if event.Some? then event.value else "");
    if q in Archived(pages, dir, proposal, event) {
      var p := if q == dir + [ARCHIVE_DIR, proposal] then dir + [proposal]
               else if event.Some? && q == dir + [ARCHIVE_DIR, EVENTS_DIR, event.value] then dir + [EVENTS_DIR, event.value]
               else q;
      assert p in pages && Place(p, dir, proposal, event) == q;
    }
  }

  /** A page that stays keeps every link that leads to no moved page, to the letter. */
  lemma OtherLinksUntouched(dir: Path, proposal: string, event: Option<string>, p: Path, h: Href)
    requires !Moves(p, dir, proposal, event)
    requires Target(p, h).Some? ==> !Moves(Target(p, h).value, dir, proposal, event)
    ensures LinkAfter(p, h, dir, proposal, event) == h
  {
  }

  predicate Moves(p: Path, dir: Path, proposal: string, event: Option<string>) {
    p == dir + [proposal] || (event.Some? && p == dir + [EVENTS_DIR, event.value])
  }

  /**
   Which links survive: those without a path; an absolute one on a page that stays; and a relative one that is not the
   moved page's own, names a page at its end if it leads to a moved one, and climbs if it is the event's.
   */
  predicate Survives(p: Path, h: Href, dir: Path, proposal: string, event: Option<string>) {
    match h
    case Url(_) => true
    case Anchor(_) => true
    case Absolute(_) => !Moves(p, dir, proposal, event)
    case Relative(path, _) =>
      var t := Resolve(Parent(p), path);
      if Moves(t, dir, proposal, event) then
        NamesAPage(h) && (t != p || !Moves(p, dir, proposal, event))
      else p != dir + [proposal] && event.Some? && p == dir + [EVENTS_DIR, event.value] ==> Climbs(path, 0)
  }

  /** A link of any page names the same page as before, wherever that page now is, exactly when it survives. */
  lemma LinkGraphIff(dir: Path, proposal: string, event: Option<string>, p: Path, h: Href)
    requires AllPlain(dir + [proposal]) && (event.Some? ==> AllPlain(dir + [EVENTS_DIR, event.value]))
    ensures (Target(Place(p, dir, proposal, event), LinkAfter(p, h, dir, proposal, event))
             == PlaceOf(Target(p, h), dir, proposal, event)) <==>
            Survives(p, h, dir, proposal, event)
  {
    hide Resolve, Climbs, RelativePath, AllPlain;
    PlainPlaces(dir, proposal, event);
    DistinctPlaces(dir, proposal, if event.Some? then event.value else "");
    if p == dir + [proposal] {
      ProposalSurvives(dir, proposal, event, h);
    } else if event.Some? && p == dir + [EVENTS_DIR, event.value] {
      EventSurvives(dir, proposal, event.value, h);
    } else {
      OtherSurvives(dir, proposal, event, p, h);
    }
  }

  lemma ProposalSurvives(dir: Path, proposal: string, event: Option<string>, h: Href)
    requires AllPlain(dir + [proposal]) && (event.Some? ==> AllPlain(dir + [EVENTS_DIR, event.value]))
    ensures var p := dir + [proposal];
            (Target(Place(p, dir, proposal, event), LinkAfter(p, h, dir, proposal, event))
             == PlaceOf(Target(p, h), dir, proposal, event)) <==>
            Survives(p, h, dir, proposal, event)
  {
    hide Resolve, Climbs, RelativePath, AllPlain;
    var src, dst := dir + [proposal], dir + [ARCHIVE_DIR, proposal];
    PlainPlaces(dir, proposal, event);
    DistinctPlaces(dir, proposal, if event.Some? then event.value else "");
    ProposalLinkKept(dir, proposal, h);
    assert |src| != |dst|;
    if event.Some? && !h.Absolute? {
      ShiftedNamesAPage(h);
      InboundLinkFollows(dst, ShiftHref(h), dir + [EVENTS_DIR, event.value], dir + [ARCHIVE_DIR, EVENTS_DIR, event.value]);
    }
  }

  lemma OtherSurvives(dir: Path, proposal: string, event: Option<string>, p: Path, h: Href)
    requires AllPlain(dir + [proposal]) && (event.Some? ==> AllPlain(dir + [EVENTS_DIR, event.value]))
    requires !Moves(p, dir, proposal, event)
    ensures (Target(Place(p, dir, proposal, event), LinkAfter(p, h, dir, proposal, event))
             == PlaceOf(Target(p, h), dir, proposal, event)) <==>
            Survives(p, h, dir, proposal, event)
  {
    hide Resolve, Climbs, RelativePath, AllPlain;
    var src, dst := dir + [proposal], dir + [ARCHIVE_DIR, proposal];
    PlainPlaces(dir, proposal, event);
    DistinctPlaces(dir, proposal, if event.Some? then event.value else "");
    InboundLinkFollows(p, h, src, dst);
    assert |src| != |dst|;
    if event.Some? {
      var e, f := dir + [EVENTS_DIR, event.value], dir + [ARCHIVE_DIR, EVENTS_DIR, event.value];
      assert |e| != |f|;
      InboundLinkFollows(p, h, e, f);
      InboundLinkFollows(p, RewriteHref(p, h, src, dst), e, f);
    }
  }

  /** A path that does not climb out goes as deep from one folder as from another. */
  lemma {:induction false} SameDepth(a: Path, b: Path, below: Path, path: Path)
    requires !Climbs(path, |below|)
    ensures |Resolve(a + below, path)| - |a| == |Resolve(b + below, path)| - |b|
    decreases |path|
  {
    if path != [] {
      if Plain(path[0]) {
        assert a + below + [path[0]] == a + (below + [path[0]]) && b + below + [path[0]] == b + (below + [path[0]]);
        SameDepth(a, b, below + [path[0]], path[1..]);
      } else if path[0] != ".." {
        SameDepth(a, b, below, path[1..]);
      } else {
        assert Parent(a + below) == a + Parent(below) && Parent(b + below) == b + Parent(below);
        SameDepth(a, b, Parent(below), path[1..]);
      }
    }
  }

  lemma EventDepth(dir: Path, name: string, h: Href)
    requires h.Relative? && !Climbs(h.path, 0)
    ensures var t, u := Target(dir + [EVENTS_DIR, name], h), Target(dir + [ARCHIVE_DIR, EVENTS_DIR, name], ShiftHref(h));
            t.Some? && u.Some? && |t.value| == |u.value|
  {
    assert Parent(dir + [EVENTS_DIR, name]) == dir + [EVENTS_DIR] + [];
    assert dir + [ARCHIVE_DIR, EVENTS_DIR, name] == dir + [ARCHIVE_DIR] + [EVENTS_DIR, name];
    TargetShifted(dir + [ARCHIVE_DIR], EVENTS_DIR, name, h);
    assert dir + [ARCHIVE_DIR] == dir + [ARCHIVE_DIR] + [];
    SameDepth(dir + [EVENTS_DIR], dir + [ARCHIVE_DIR], [], h.path);
  }

  lemma EventSurvives(dir: Path, proposal: string, event: string, h: Href)
    requires AllPlain(dir + [proposal]) && AllPlain(dir + [EVENTS_DIR, event])
    ensures var p := dir + [EVENTS_DIR, event];
            (Target(Place(p, dir, proposal, Some(event)), LinkAfter(p, h, dir, proposal, Some(event)))
             == PlaceOf(Target(p, h), dir, proposal, Some(event))) <==>
            Survives(p, h, dir, proposal, Some(event))
  {
    hide Resolve, Climbs, RelativePath, AllPlain;
    var src, dst := dir + [proposal], dir + [ARCHIVE_DIR, proposal];
    var e, f := dir + [EVENTS_DIR, event], dir + [ARCHIVE_DIR, EVENTS_DIR, event];
    PlainPlaces(dir, proposal, Some(event));
    DistinctPlaces(dir, proposal, event);
    assert |src| < |dst| && |e| < |f| && |e| == |dst|;
    if h.Relative? {
      var first := RewriteHref(e, h, src, dst);
      InboundLinkFollows(e, h, src, dst);
      EventLinkKept(dir, event, first);
      if Target(e, h) == Some(src) && NamesAPage(h) {
        RewrittenClimbs(dir, event, proposal, h);
      } else {
        RelativePathLeads(Parent(e), dst);
        assert first == h;
        if !Climbs(h.path, 0) { EventDepth(dir, event, h); }
      }
    }
  }

  lemma PlainPlaces(dir: Path, proposal: string, event: Option<string>)
    requires AllPlain(dir + [proposal]) && (event.Some? ==> AllPlain(dir + [EVENTS_DIR, event.value]))
    ensures AllPlain(dir + [ARCHIVE_DIR, proposal])
    ensures event.Some? ==> AllPlain(dir + [ARCHIVE_DIR, EVENTS_DIR, event.value])
  {
    assert forall i :: 0 <= i < |dir| ==> dir[i] == (dir + [proposal])[i];
    assert (dir + [proposal])[|dir|] == proposal;
    if event.Some? { assert (dir + [EVENTS_DIR, event.value])[|dir| + 1] == event.value; }
  }

  /** A link from the event to the proposal is rewritten to climb. */
  lemma RewrittenClimbs(dir: Path, event: string, proposal: string, h: Href)
    requires Target(dir + [EVENTS_DIR, event], h) == Some(dir + [proposal]) && NamesAPage(h)
    ensures var r := RewriteHref(dir + [EVENTS_DIR, event], h, dir + [proposal], dir + [ARCHIVE_DIR, proposal]);
            r.Relative? && Climbs(r.path, 0)
  {
    var from, to := dir + [EVENTS_DIR], dir + [ARCHIVE_DIR, proposal];
    assert Parent(dir + [EVENTS_DIR, event]) == from;
    LastOfResolved(from, h.path);
    CommonAt(from, to, |dir|);
    assert from[|dir|] != to[|dir|];
  }

  lemma {:induction false} CommonAt(a: Path, b: Path, k: nat)
    requires k < |a| && k < |b| && a[k] != b[k]
    ensures Common(a, b) <= k
  {
  }

  lemma ShiftedNamesAPage(h: Href)
    requires !h.Absolute?
    ensures NamesAPage(ShiftHref(h)) <==> NamesAPage(h)
  {
  }

  /** A page's link to itself is left behind: it names the place the page moved from. */
  lemma SelfLinkLeftBehind(pages: Pages, dir: Path, proposal: string, h: Href)
    requires dir + [proposal] in pages && dir + [ARCHIVE_DIR, proposal] !in pages
    requires Target(dir + [proposal], h) == Some(dir + [proposal])
    ensures var after := Archived(pages, dir, proposal, None);
            dir + [proposal] !in after && dir + [ARCHIVE_DIR, proposal] in after
    ensures Target(dir + [ARCHIVE_DIR, proposal], LinkAfter(dir + [proposal], h, dir, proposal, None)) == Some(dir + [proposal])
  {
    ProposalLinkKept(dir, proposal, h);
    assert |dir + [proposal]| != |dir + [ARCHIVE_DIR, proposal]|;
  }
}
