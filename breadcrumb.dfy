/** The path logic of `DynamicBreadcrumb`: split the pathname into segments,
    give each a cumulative href, a capitalised title and an `isLast` mark,
    and lay out the Home link, the items and the separators between them. */
module Breadcrumb {
  import opened Text

  /** The pieces of a split with the empty strings removed
      (`filter((item) => item !== "")`). */
  function RemoveEmpty(parts: seq<string>): (r: seq<string>)
    ensures forall k :: 0 <= k < |r| ==> r[k] != ""
    ensures forall k :: 0 <= k < |r| ==> r[k] in parts
    ensures |r| <= |parts|
  {
    if |parts| == 0 then []
    else if parts[0] == "" then RemoveEmpty(parts[1..])
    else [parts[0]] + RemoveEmpty(parts[1..])
  }

  /** `paths`: the root has no segments; any other pathname is split on `/`
      and its empty pieces dropped. */
  function Segments(pathname: string): seq<string> {
    if pathname == "/" then [] else RemoveEmpty(Split(pathname, '/'))
  }

  /** `item.charAt(0).toUpperCase() + item.slice(1)`, for ASCII letters. */
  function Title(segment: string): string {
    if |segment| == 0 then "" else [UpperChar(segment[0])] + segment[1..]
  }

  /** One breadcrumb entry. */
  datatype Crumb = Crumb(href: string, title: string, isLast: bool)

  /** `"/" + paths.slice(0, index + 1).join("/")`. */
  function Href(paths: seq<string>, index: nat): string
    requires index < |paths|
  {
    "/" + Join(paths[..index + 1], '/')
  }

  /** The entries `paths.map` produces, one per segment. */
  function Crumbs(paths: seq<string>): (cs: seq<Crumb>)
    ensures |cs| == |paths|
  {
    seq(|paths|, i requires 0 <= i < |paths| => Crumb(Href(paths, i), Title(paths[i]), i == |paths| - 1))
  }

  /** What is rendered, in order. */
  datatype Element = HomeLink(href: string) | Separator | Link(href: string, title: string) | Page(title: string)

  /** One entry: the last is the current page, the others are links followed
      by a separator. */
  function ItemOf(c: Crumb): seq<Element> {
    if c.isLast then [Page(c.title)] else [Link(c.href, c.title), Separator]
  }

  function Items(cs: seq<Crumb>): seq<Element> {
    if |cs| == 0 then [] else ItemOf(cs[0]) + Items(cs[1..])
  }

  /** The whole breadcrumb list for a pathname. */
  function Render(pathname: string): seq<Element> {
    var paths := Segments(pathname);
    [HomeLink("/")] + (if |paths| > 0 then [Separator] else []) + Items(Crumbs(paths))
  }

  function SeparatorCount(es: seq<Element>): nat {
    if |es| == 0 then 0 else (if es[0] == Separator then 1 else 0) + SeparatorCount(es[1..])
  }

  function NonLastCount(cs: seq<Crumb>): nat {
    if |cs| == 0 then 0 else (if cs[0].isLast then 0 else 1) + NonLastCount(cs[1..])
  }

  /** The special case for `/` agrees with the general rule. */
  lemma RootAgreesWithRule()
    ensures RemoveEmpty(Split("/", '/')) == [] == Segments("/")
  {
    assert Split("/", '/') == [""] + Split("", '/');
  }

  /** No segment is empty and none contains `/`. */
  lemma SegmentsWellFormed(pathname: string)
    ensures forall k :: 0 <= k < |Segments(pathname)| ==>
      Segments(pathname)[k] != "" && '/' !in Segments(pathname)[k]
  {
  }

  /** A pathname written as `/` followed by non-empty, slash-free segments
      joined with `/` gives back exactly those segments. */
  lemma SegmentsOfCanonical(segs: seq<string>)
    requires forall k :: 0 <= k < |segs| ==> segs[k] != "" && '/' !in segs[k]
    ensures Segments("/" + Join(segs, '/')) == segs
  {
    var joined := Join(segs, '/');
    if |segs| == 0 {
      assert "/" + joined == "/";
    } else {
      var path := "/" + joined;
      JoinNonEmpty(segs);
      assert path != "/" by { assert |path| > 1; }
      SplitJoin(segs, '/');
      SplitFirst("", joined, '/');
      assert "" + ['/'] + joined == path;
      var pieces := [""] + segs;
      assert Split(path, '/') == pieces;
      assert pieces[0] == "" && pieces[1..] == segs;
      assert RemoveEmpty(pieces) == RemoveEmpty(segs);
      RemoveEmptyKeeps(segs);
    }
  }

  /** Joining pieces whose first is non-empty gives a non-empty string. */
  lemma JoinNonEmpty(segs: seq<string>)
    requires |segs| > 0 && segs[0] != ""
    ensures |Join(segs, '/')| > 0
  {
  }

  lemma {:induction false} RemoveEmptyKeeps(segs: seq<string>)
    requires forall k :: 0 <= k < |segs| ==> segs[k] != ""
    ensures RemoveEmpty(segs) == segs
  {
    if |segs| > 0 {
      RemoveEmptyKeeps(segs[1..]);
    }
  }

  /** The filter keeps a non-empty piece, drops an empty one, and works piece
      by piece, so it keeps every non-empty piece in its order. */
  lemma RemoveEmptyOne(piece: string)
    ensures RemoveEmpty([piece]) == (if piece == "" then [] else [piece])
  {
  }

  /** Every non-empty piece survives the filter. */
  lemma {:induction false} RemoveEmptyKeepsEveryPiece(parts: seq<string>, k: nat)
    requires k < |parts| && parts[k] != ""
    ensures parts[k] in RemoveEmpty(parts)
  {
    if k > 0 {
      RemoveEmptyKeepsEveryPiece(parts[1..], k - 1);
    }
  }

  lemma {:induction false} RemoveEmptyAppend(a: seq<string>, b: seq<string>)
    ensures RemoveEmpty(a + b) == RemoveEmpty(a) + RemoveEmpty(b)
  {
    if |a| == 0 {
      assert a + b == b;
    } else {
      var ab := a + b;
      assert ab[0] == a[0] && ab[1..] == a[1..] + b;
      RemoveEmptyAppend(a[1..], b);
      if a[0] == "" {
        assert RemoveEmpty(ab) == RemoveEmpty(a[1..] + b);
        assert RemoveEmpty(a) == RemoveEmpty(a[1..]);
      } else {
        assert RemoveEmpty(ab) == [a[0]] + RemoveEmpty(a[1..] + b);
        assert RemoveEmpty(a) == [a[0]] + RemoveEmpty(a[1..]);
      }
    }
  }

  /** An illustration on one input: repeated and trailing slashes leave no
      empty segment behind. The general fact is `RemoveEmptyAppend` with
      `RemoveEmptyOne` (the filter keeps exactly the non-empty pieces, in
      order); this lemma only instantiates it. */
  lemma SegmentsSkipEmptyPieces()
    ensures Segments("/a//b/") == ["a", "b"]
  {
    SplitOfDoubledSlash();
    RemoveEmptyOfPieces("a", "b");
  }

  lemma RemoveEmptyOfPieces(a: string, b: string)
    requires a != "" && b != ""
    ensures RemoveEmpty(["", a, "", b, ""]) == [a, b]
  {
    var p := ["", a, "", b, ""];
    assert p[1..] == [a, "", b, ""];
    assert p[1..][1..] == ["", b, ""];
    assert p[1..][1..][1..] == [b, ""];
    assert p[1..][1..][1..][1..] == [""];
    assert RemoveEmpty([""]) == [];
    assert RemoveEmpty([b, ""]) == [b];
    assert RemoveEmpty(["", b, ""]) == [b];
    assert RemoveEmpty([a, "", b, ""]) == [a, b];
  }

  lemma SplitOfDoubledSlash()
    ensures Split("/a//b/", '/') == ["", "a", "", "b", ""]
  {
    SplitFirst("b", "", '/');
    assert "b" + ['/'] + "" == "b/";
    SplitFirst("", "b/", '/');
    assert "" + ['/'] + "b/" == "/b/";
    SplitFirst("a", "/b/", '/');
    assert "a" + ['/'] + "/b/" == "a//b/";
    SplitFirst("", "a//b/", '/');
    assert "" + ['/'] + "a//b/" == "/a//b/";
  }

  /** Each href extends the previous one by `/` and the next segment, so it
      is a prefix of the next; the last is the whole segment path. */
  lemma HrefChain(paths: seq<string>, i: nat)
    requires i + 1 < |paths|
    ensures Href(paths, i + 1) == Href(paths, i) + "/" + paths[i + 1]
    ensures StartsWith(Href(paths, i + 1), Href(paths, i))
  {
    assert paths[..i + 2] == paths[..i + 1] + [paths[i + 1]];
    JoinSnoc(paths[..i + 1], paths[i + 1], '/');
  }

  lemma LastHref(paths: seq<string>)
    requires |paths| > 0
    ensures Crumbs(paths)[|paths| - 1].href == "/" + Join(paths, '/')
  {
    assert paths[..|paths|] == paths;
  }

  /** Exactly the final entry is marked last. */
  lemma OnlyFinalIsLast(paths: seq<string>, i: nat)
    requires i < |paths|
    ensures Crumbs(paths)[i].isLast <==> i == |paths| - 1
  {
  }

  /** A title has its segment's length and differs from it at most at the
      first character, which is upper-cased. */
  lemma TitleShape(segment: string)
    requires segment != ""
    ensures |Title(segment)| == |segment|
    ensures Title(segment)[0] == UpperChar(segment[0])
    ensures forall k :: 1 <= k < |segment| ==> Title(segment)[k] == segment[k]
  {
  }

  lemma {:induction false} SeparatorCountAppend(a: seq<Element>, b: seq<Element>)
    ensures SeparatorCount(a + b) == SeparatorCount(a) + SeparatorCount(b)
  {
    if |a| > 0 {
      SeparatorCountAppend(a[1..], b);
      assert (a + b)[1..] == a[1..] + b;
    } else {
      assert a + b == b;
    }
  }

  /** Each non-last entry contributes one separator. */
  lemma {:induction false} ItemsSeparators(cs: seq<Crumb>)
    ensures SeparatorCount(Items(cs)) == NonLastCount(cs)
  {
    if |cs| > 0 {
      ItemsSeparators(cs[1..]);
      SeparatorCountAppend(ItemOf(cs[0]), Items(cs[1..]));
    }
  }

  lemma {:induction false} NonLastCountOfMarked(cs: seq<Crumb>)
    requires |cs| > 0
    requires forall i :: 0 <= i < |cs| ==> (cs[i].isLast <==> i == |cs| - 1)
    ensures NonLastCount(cs) == |cs| - 1
  {
    if |cs| > 1 {
      assert !cs[0].isLast;
      NonLastCountOfMarked(cs[1..]);
    } else {
      assert cs[0].isLast;
    }
  }

  /** There are as many separators as segments: one after Home when there are
      segments, and one after every entry but the last. */
  lemma SeparatorsMatchSegments(pathname: string)
    ensures SeparatorCount(Render(pathname)) == |Segments(pathname)|
  {
    var paths := Segments(pathname);
    var head := [HomeLink("/")] + (if |paths| > 0 then [Separator] else []);
    assert SeparatorCount([HomeLink("/")]) == 0;
    if |paths| > 0 {
      SeparatorCountAppend([HomeLink("/")], [Separator]);
    }
    SeparatorCountAppend(head, Items(Crumbs(paths)));
    ItemsSeparators(Crumbs(paths));
    if |paths| > 0 {
      NonLastCountOfMarked(Crumbs(paths));
    }
  }
}
