/**
 * The two page rewrites the replay endpoint applies to an HTML response so
 * that a replayed page renders standalone: a `<base href>` tag pointing at the
 * request URL's directory.
 */
module Html {
  import opened Base
  import opened Text
  import opened Urls

  /** The tag inserted for `href`. */
  function BaseTag(href: string): (t: string)
    ensures MatchAt(t, 0, "<base")
  {
    "<base href=\"" + href + "\">"
  }

  /** The regular expression `<head[^>]*>` (case-insensitive) matches at `k`: the name, then some later `>`. */
  predicate HeadOpenAt(html: string, k: nat) {
    FoldMatchAt(html, k, "<head") && FindChar(html, '>', k + 5).Some?
  }

  /** The leftmost match of `<head[^>]*>`, at or after `from`. */
  function SearchHeadOpen(html: string, from: nat): (r: Option<nat>)
    decreases |html| - from
    ensures r.Some? ==> from <= r.value && HeadOpenAt(html, r.value)
    ensures r.Some? ==> forall k :: from <= k < r.value ==> !HeadOpenAt(html, k)
    ensures r.None? ==> forall k :: from <= k ==> !HeadOpenAt(html, k)
  {
    if from + 5 > |html| then None
    else if HeadOpenAt(html, from) then Some(from)
    else SearchHeadOpen(html, from + 1)
  }

  /** The leftmost case-insensitive `</head>`, at or after `from`. */
  function SearchHeadClose(html: string, from: nat): (r: Option<nat>)
    decreases |html| - from
    ensures r.Some? ==> from <= r.value && FoldMatchAt(html, r.value, "</head>")
    ensures r.Some? ==> forall k :: from <= k < r.value ==> !FoldMatchAt(html, k, "</head>")
    ensures r.None? ==> forall k :: from <= k ==> !FoldMatchAt(html, k, "</head>")
  {
    if from + 7 > |html| then None
    else if FoldMatchAt(html, from, "</head>") then Some(from)
    else SearchHeadClose(html, from + 1)
  }

  /**
   * Where the tag goes: just after the first opening `<head...>` tag, else
   * just before the first `</head>`, else at the very start.
   */
  function InsertionPoint(html: string): (i: nat)
    ensures i <= |html|
    ensures match SearchHeadOpen(html, 0)
            case Some(k) => i == FindChar(html, '>', k + 5).value + 1
            case None => match SearchHeadClose(html, 0)
                         case Some(k) => i == k
                         case None => i == 0
  {
    match SearchHeadOpen(html, 0)
    case Some(k) => FindChar(html, '>', k + 5).value + 1
    case None =>
      match SearchHeadClose(html, 0)
      case Some(k) => k
      case None => 0
  }

  /** `_inject_base_href`. */
  function InjectBaseHref(html: string, href: string): (r: string)
    ensures Contains(Lower(html), "<base") ==> r == html
    ensures !Contains(Lower(html), "<base") ==>
              var i := InsertionPoint(html);
              |r| == |html| + |BaseTag(href)| && r[i..i + |BaseTag(href)|] == BaseTag(href)
              && r[..i] + r[i + |BaseTag(href)|..] == html
  {
    if Contains(Lower(html), "<base") then html
    else
      var i := InsertionPoint(html);
      var r := html[..i] + BaseTag(href) + html[i..];
      assert r[..i] == html[..i] && r[i + |BaseTag(href)|..] == html[i..];
      r
  }

  lemma {:induction false} LowerAppend(a: string, b: string)
    ensures Lower(a + b) == Lower(a) + Lower(b)
  {
  }

  /** Injecting twice is injecting once: the first injection leaves a `<base` behind. */
  lemma InjectIdempotent(html: string, href: string)
    ensures InjectBaseHref(InjectBaseHref(html, href), href) == InjectBaseHref(html, href)
  {
    var r := InjectBaseHref(html, href);
    if !Contains(Lower(html), "<base") {
      TagLeavesBase(r, InsertionPoint(html), href);
    }
  }

  /** Text holding the tag somewhere contains `<base` once lower-cased. */
  lemma TagLeavesBase(r: string, i: nat, href: string)
    requires i + |BaseTag(href)| <= |r| && r[i..i + |BaseTag(href)|] == BaseTag(href)
    ensures Contains(Lower(r), "<base")
  {
    var t := BaseTag(href);
    assert r[i..i + 5] == t[..5] == "<base";
    assert Lower(r)[i..i + 5] == Lower("<base") == "<base";
    ContainsAt(Lower(r), "<base", i);
  }

  /** `path.rsplit("/", 1)[0]`: everything before the last `/`, or the whole path when it has none. */
  function BeforeLastSlash(path: string): (r: string)
    ensures r <= path
    ensures |r| < |path| ==> path[|r|] == '/' && forall k :: |r| < k < |path| ==> path[k] != '/'
    ensures |r| == |path| ==> forall k :: 0 <= k < |path| ==> path[k] != '/'
  {
    if path == [] then []
    else if path[|path| - 1] == '/' then path[..|path| - 1]
    else
      var r := BeforeLastSlash(path[..|path| - 1]);
      if |r| == |path| - 1 then path else r
  }

  /**
   * The directory part of a path: `/` for an empty path, the path itself
   * when it ends with `/`, otherwise the path cut just after its last `/`
   * (or extended by `/` when it has none). The result always ends with `/`.
   */
  function DirPath(path: string): (r: string)
    ensures EndsWith(r, "/")
    ensures path == [] ==> r == "/"
    ensures path != [] && EndsWith(path, "/") ==> r == path
    ensures !EndsWith(path, "/") && path != [] ==>
              (exists k :: 0 <= k < |path| && path[k] == '/')
                ==> r <= path && forall k :: |r| <= k < |path| ==> path[k] != '/'
    ensures path != [] && (forall k :: 0 <= k < |path| ==> path[k] != '/') ==> r == path + "/"
  {
    var p := if path == [] then "/" else path;
    assert EndsWith(p, "/") ==> p[|p| - 1] == p[|p| - 1..][0] == '/';
    if EndsWith(p, "/") then p
    else
      var b := BeforeLastSlash(p);
      assert (forall k :: 0 <= k < |p| ==> p[k] != '/') ==> b == p;
      var r := b + "/";
      assert |b| < |p| ==> r == p[..|b| + 1];
      r
  }

  /** `_base_href_for_url`: the request URL without query or fragment, its path cut to its directory. */
  function BaseHrefForUrl(codec: UrlCodec, url: string): string {
    var parts := codec.split(url);
    codec.unsplit(Url(parts.scheme, parts.netloc, DirPath(parts.path), [], ""))
  }

  /**
   * When the URL library splits the URL it rebuilt back into the same parts,
   * the base href has the request's scheme and host, no query and no
   * fragment, and a directory path: the request's path up to and including
   * its last `/`, ending in `/`.
   */
  lemma BaseHrefComponents(codec: UrlCodec, url: string)
    requires var u := codec.split(url);
             var rec := Url(u.scheme, u.netloc, DirPath(u.path), [], "");
             codec.split(codec.unsplit(rec)) == rec
    ensures var u := codec.split(url);
            var b := codec.split(BaseHrefForUrl(codec, url));
            && b.scheme == u.scheme && b.netloc == u.netloc
            && b.query == [] && b.fragment == ""
            && b.path == DirPath(u.path) && EndsWith(b.path, "/")
  {
    var u := codec.split(url);
    var rec := Url(u.scheme, u.netloc, DirPath(u.path), [], "");
    assert BaseHrefForUrl(codec, url) == codec.unsplit(rec);
  }
}
