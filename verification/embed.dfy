/** scripts/media.ts: the public list of embedded videos. `new URL(...)`
    is the `parse` parameter, which yields the parts of the URL the code
    reads or nothing when the text is not a URL. */
module Embed {
  import opened Wrappers
  import opened Text
  import opened Html

  /** A parsed URL: its host name, its path, its `v` query parameter (""
      when absent) and its serialisation `parsed.toString()`. */
  datatype ParsedUrl = ParsedUrl(hostname: string, pathname: string, v: string, serialized: string)

  /** `hostname.replace(/^www\./i, "").toLowerCase()`. */
  function NormalHost(hostname: string): (r: string)
    ensures NoUpper(r)
    ensures |hostname| >= 4 && ToLower(hostname[..4]) == "www." ==> r == ToLower(hostname[4..])
    ensures !(|hostname| >= 4 && ToLower(hostname[..4]) == "www.") ==> r == ToLower(hostname)
  {
    if |hostname| >= 4 && ToLower(hostname[..4]) == "www." then ToLower(hostname[4..]) else ToLower(hostname)
  }

  /** One leading `www.`, in any letter case, is dropped: a host reached
      with or without it is the same host. */
  lemma NormalHostOfWww(w: string, host: string)
    requires |w| == 4 && ToLower(w) == "www."
    ensures NormalHost(w + host) == ToLower(host)
    ensures !StartsWith(ToLower(host), "www.") ==> NormalHost(host) == ToLower(host)
  {
    assert (w + host)[..4] == w;
    assert (w + host)[4..] == host;
    if |host| >= 4 {
      assert ToLower(host)[..4] == ToLower(host[..4]);
    }
  }

  /** `pathname.replace(/^\//, "")`: the path without one leading "/". */
  function PathId(pathname: string): (r: string)
    ensures StartsWith(pathname, "/") ==> "/" + r == pathname
    ensures !StartsWith(pathname, "/") ==> r == pathname
  {
    if StartsWith(pathname, "/") then
      assert pathname == "/" + pathname[1..];
      pathname[1..]
    else pathname
  }

  const YouTubeEmbed := "https://www.youtube.com/embed/"
  const VimeoPlayer := "https://player.vimeo.com/video/"

  predicate IsYouTubeHost(host: string) {
    host == "youtube.com" || host == "m.youtube.com"
  }

  /** `toEmbedUrl`: a YouTube watch link with a video id becomes YouTube's
      embed address; a YouTube embed link is kept (as the parser writes it);
      a `youtu.be` or `vimeo.com` link with an id in its path becomes the
      embed or player address; any other URL is returned as the parser
      writes it, and text that is not a URL is returned as it is. */
  function ToEmbedUrl(input: string, parsed: Option<ParsedUrl>): (r: string)
    ensures parsed.None? ==> r == input
    ensures parsed.Some? ==>
      var p := parsed.value;
      var host := NormalHost(p.hostname);
      && (IsYouTubeHost(host) && p.pathname == "/watch" && p.v != "" ==> r == YouTubeEmbed + p.v)
      && ((IsYouTubeHost(host) && !(p.pathname == "/watch" && p.v != "") && StartsWith(p.pathname, "/embed/"))
          ==> r == p.serialized)
      && (host == "youtu.be" && PathId(p.pathname) != "" ==> r == YouTubeEmbed + PathId(p.pathname))
      && (host == "vimeo.com" && PathId(p.pathname) != "" ==> r == VimeoPlayer + PathId(p.pathname))
      && (!IsYouTubeHost(host) && host != "youtu.be" && host != "vimeo.com" ==> r == p.serialized)
      && ((IsYouTubeHost(host) && !(p.pathname == "/watch" && p.v != "") && !StartsWith(p.pathname, "/embed/"))
          ==> r == p.serialized)
      && ((host == "youtu.be" || host == "vimeo.com") && PathId(p.pathname) == "" ==> r == p.serialized)
    ensures parsed.Some? ==>
      r == parsed.value.serialized || StartsWith(r, YouTubeEmbed) || StartsWith(r, VimeoPlayer)
  {
    match parsed
    case None => input
    case Some(p) =>
      var host := NormalHost(p.hostname);
      if IsYouTubeHost(host) && p.pathname == "/watch" && p.v != "" then YouTubeEmbed + p.v
      else if IsYouTubeHost(host) && StartsWith(p.pathname, "/embed/") then p.serialized
      else if host == "youtu.be" && PathId(p.pathname) != "" then YouTubeEmbed + PathId(p.pathname)
      else if host == "vimeo.com" && PathId(p.pathname) != "" then VimeoPlayer + PathId(p.pathname)
      else p.serialized
  }

  /** Embedding is stable: the embed address made from a watch link is,
      once parsed, kept as it is. */
  lemma EmbedOfEmbed(id: string, serialized: string)
    requires id != ""
    ensures ToEmbedUrl(YouTubeEmbed + id, Some(ParsedUrl("www.youtube.com", "/embed/" + id, "", serialized)))
         == serialized
  {
    assert ToLower("www.")  == "www.";
    assert ToLower("youtube.com") == "youtube.com";
    assert "www.youtube.com"[4..] == "youtube.com";
    assert ("/embed/" + id)[..7] == "/embed/";
  }

  /** A watch link and a short link for the same id embed alike. */
  lemma ShortAndWatchLinksAgree(id: string, s1: string, s2: string)
    requires id != ""
    ensures ToEmbedUrl("", Some(ParsedUrl("youtube.com", "/watch", id, s1)))
         == ToEmbedUrl("", Some(ParsedUrl("youtu.be", "/" + id, "", s2)))
  {
    assert ToLower("youtube.com") == "youtube.com";
    assert ToLower("youtu.be") == "youtu.be";
    assert "youtube.com"[..4] == "yout" && ToLower("yout")[0] == 'y';
    assert ("/" + id)[..1] == "/";
  }

  /** The page's result: an error message, or the iframe sources and the
      message. */
  datatype Page = Unavailable(message: string) | Listed(sources: seq<string>, message: string)

  /** The page script after the select of the active embeds: the escaped
      embed address of each row's `video_url`. */
  function RenderEmbeds(result: Result<seq<string>, string>, parse: string -> Option<ParsedUrl>): (r: Page)
    ensures result.Err? ==> r == Unavailable("Video embeds are currently unavailable.")
    ensures result.Ok? && result.value == [] ==> r == Listed([], "No video embeds published yet.")
    ensures result.Ok? && result.value != [] ==>
      && r.Listed? && r.message == "" && |r.sources| == |result.value|
      && forall i :: 0 <= i < |result.value| ==>
           Unescape(r.sources[i]) == ToEmbedUrl(result.value[i], parse(result.value[i]))
           && MarkupSafe(r.sources[i])
  {
    match result
    case Err(_) => Unavailable("Video embeds are currently unavailable.")
    case Ok(urls) =>
      if urls == [] then Listed([], "No video embeds published yet.")
      else Listed(seq(|urls|, i requires 0 <= i < |urls| => Escape(ToEmbedUrl(urls[i], parse(urls[i])))), "")
  }
}
