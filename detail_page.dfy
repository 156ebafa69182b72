/** Reading a simfile's detail page: `get_simfile_name` and `get_zip_link`.
    `get_simfile_name` reads the link texts of the page's `top-nav` block;
    `get_zip_link` reads all of its `<a>` elements in document order. */
module DetailPage {
  import opened Text
  import opened Results

  const BaseUrl: string := "https://zenius-i-vanisher.com/v5.2/"

  /** An `<a>` element: its `href` attribute when present, and its text. */
  datatype Link = Link(href: Option<string>, text: string)

  /** What `get_simfile_name` reads from a detail page: the texts of the
      `<a>` elements inside the first `div` with id `top-nav` (`None` when
      there is no such `div`). */
  datatype Page = Page(topNav: Option<seq<string>>)

  /** `get_simfile_name`: the stripped text of the last link of the
      `top-nav` block; an error when the block is missing or has no link. */
  function SimfileName(page: Page): (r: Result<string>)
    ensures r.Ok? <==> page.topNav.Some? && page.topNav.value != []
    ensures r.Ok? ==> r.value == [] || (!IsSpace(r.value[0]) && !IsSpace(r.value[|r.value| - 1]))
    ensures r.Err? ==> r.error == NoSimfileName
  {
    match page.topNav
    case None => Err(NoSimfileName)
    case Some(texts) =>
      if texts == [] then Err(NoSimfileName) else Ok(Strip(texts[|texts| - 1]))
  }

  /** Only the last `top-nav` link names the simfile, and the whitespace
      around its text is dropped. */
  lemma SimfileNameIsLastLink(before: seq<string>, lead: string, name: string, trail: string)
    requires AllSpace(lead) && AllSpace(trail)
    requires name == [] || (!IsSpace(name[0]) && !IsSpace(name[|name| - 1]))
    ensures SimfileName(Page(Some(before + [lead + name + trail]))) == Ok(name)
  {
    StripPadded(lead, name, trail);
  }

  /** A link `get_zip_link` accepts: it has an `href` and its stripped
      text is exactly `ZIP`. */
  predicate IsZipLink(l: Link) {
    l.href.Some? && Strip(l.text) == "ZIP"
  }

  /** `k` is the first ZIP link of `links`. */
  predicate FirstZipAt(links: seq<Link>, k: int) {
    0 <= k < |links| && IsZipLink(links[k]) && forall j :: 0 <= j < k ==> !IsZipLink(links[j])
  }

  /** `get_zip_link`, over the page's `<a>` elements in document order: the
      base URL followed by the `href` of the first ZIP link; an error when
      the page has none. */
  function ZipLink(links: seq<Link>): (r: Result<string>)
    ensures r.Err? ==> r.error == NoZipLink
  {
    if links == [] then Err(NoZipLink)
    else if IsZipLink(links[0]) then Ok(BaseUrl + links[0].href.value)
    else ZipLink(links[1..])
  }

  /** `get_zip_link` fails exactly when no link is a ZIP link, and otherwise
      returns the `href` of the one found first, at the returned index. */
  lemma {:induction false} ZipLinkIsFirstZip(links: seq<Link>) returns (k: int)
    ensures ZipLink(links).Err? <==> forall j :: 0 <= j < |links| ==> !IsZipLink(links[j])
    ensures ZipLink(links).Ok? ==> FirstZipAt(links, k) && ZipLink(links).value == BaseUrl + links[k].href.value
    decreases |links|, 1
  {
    k := 0;
    if links != [] && !IsZipLink(links[0]) {
      k := ZipLinkAfterOther(links);
    }
  }

  /** A first link that is not a ZIP link is passed over: the search goes
      on in the rest of the page. */
  lemma {:induction false} ZipLinkAfterOther(links: seq<Link>) returns (k: int)
    requires links != [] && !IsZipLink(links[0])
    ensures ZipLink(links).Err? <==> forall j :: 0 <= j < |links| ==> !IsZipLink(links[j])
    ensures ZipLink(links).Ok? ==> FirstZipAt(links, k) && ZipLink(links).value == BaseUrl + links[k].href.value
    decreases |links|, 0
  {
    var rest := links[1..];
    var k' := ZipLinkIsFirstZip(rest);
    assert ZipLink(links) == ZipLink(rest);
    forall j | 1 <= j < |links| ensures links[j] == rest[j - 1] {
    }
    k := k' + 1;
  }

  /** The first ZIP link is unique: whichever index the search reports is
      the one a reader finds by scanning from the start. */
  lemma FirstZipUnique(links: seq<Link>, k1: int, k2: int)
    requires FirstZipAt(links, k1) && FirstZipAt(links, k2)
    ensures k1 == k2
  {
  }

  /** A link labelled `ZIP` (with any surrounding whitespace) after links
      that are not ZIP links is the one returned; what follows it does not
      matter. */
  lemma ZipLinkFound(before: seq<Link>, href: string, lead: string, trail: string, after: seq<Link>)
    requires forall j :: 0 <= j < |before| ==> !IsZipLink(before[j])
    requires AllSpace(lead) && AllSpace(trail)
    ensures ZipLink(before + [Link(Some(href), lead + "ZIP" + trail)] + after) == Ok(BaseUrl + href)
  {
    var links := before + [Link(Some(href), lead + "ZIP" + trail)] + after;
    StripPadded(lead, "ZIP", trail);
    assert FirstZipAt(links, |before|) by {
      assert links[|before|] == Link(Some(href), lead + "ZIP" + trail);
      forall j | 0 <= j < |before| ensures !IsZipLink(links[j]) {
        assert links[j] == before[j];
      }
    }
    var k := ZipLinkIsFirstZip(links);
    FirstZipUnique(links, k, |before|);
  }
}
