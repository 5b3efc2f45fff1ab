/**
 * The links the snippet card builds from a snippet id: the absolute URL
 * handed to the share buttons and the copy-link button, and the relative
 * link to the snippet's preview-and-comments page.
 */
module ShareLinks {
  import opened Wrappers

  /** The site the card shares snippets from. */
  const SiteOrigin: string := "https://sharuco.lndev.me"

  /** The fixed part of every share URL. */
  const SharePrefix: string := "https://sharuco.lndev.me/code-preview/"

  /** `shareUrl`: the fixed prefix followed by the snippet id. */
  function ShareUrl(id: string): (url: string)
    ensures |url| == |SharePrefix| + |id|
    ensures url[..|SharePrefix|] == SharePrefix
    ensures url[|SharePrefix|..] == id
  {
    SharePrefix + id
  }

  /** The `href` of the comment link: the preview page of the snippet, relative to the site. */
  function CommentHref(id: string): (href: string)
    ensures |href| == |"/code-preview/"| + |id|
    ensures href[..|"/code-preview/"|] == "/code-preview/"
    ensures href[|"/code-preview/"|..] == id
  {
    "/code-preview/" + id
  }

  /** The snippet id a share URL points at, or `None` for a URL of another form. */
  function SnippetIdOf(url: string): (id: Option<string>)
    ensures id.Some? <==> |url| >= |SharePrefix| && url[..|SharePrefix|] == SharePrefix
    ensures id.Some? ==> ShareUrl(id.value) == url
  {
    if |url| >= |SharePrefix| && url[..|SharePrefix|] == SharePrefix then
      assert url == url[..|SharePrefix|] + url[|SharePrefix|..];
      Some(url[|SharePrefix|..])
    else
      None
  }

  /** The id can be read back from the share URL, so different snippets get different URLs. */
  lemma ShareUrlRoundTrip(id: string)
    ensures SnippetIdOf(ShareUrl(id)) == Some(id)
    ensures forall other :: ShareUrl(other) == ShareUrl(id) ==> other == id
  {
  }

  /** The share URL is the comment link's page, on the site. */
  lemma ShareUrlIsCommentPageOnSite(id: string)
    ensures ShareUrl(id) == SiteOrigin + CommentHref(id)
  {
  }

}
