/**
 * Image-URL helpers of the board: the image classifier (`is_image_url`) and the
 * first-image search over the URLs of a text (`extract_first_image_url`).
 *
 * The extension pattern (a dot, one of five image extensions in any case, an
 * optional query, then the end of the text) and the URL pattern (an `http` or
 * `https` scheme in any case followed by a run of non-whitespace) are written
 * out below as the searches the regular-expression engine performs.
 */
module ImageUrl {
  import opened Wrappers
  import opened Ascii

  const ImageExtensions: seq<string> := ["png", "jpg", "jpeg", "gif", "webp"]
  const CdnHosts: seq<string> := ["cdn.discordapp.com", "media.discordapp.net", "images-ext", "pbs.twimg.com"]

  /** The lower-case `word` occurs at index `i` of `s`, ignoring ASCII case. */
  predicate MatchesAtIgnoringCase(s: string, i: nat, word: string) {
    i + |word| <= |s| && forall k :: 0 <= k < |word| ==> LowerChar(s[i + k]) == word[k]
  }

  // ------------------------------------------------------------ is_image_url

  /** What may follow the extension for `(?:\?.*)?$` to match: nothing, or a final
      line feed, or `?` then any text whose only line feed, if any, is its last
      character (`.` stops at a line feed, `$` matches at the end or before a final one). */
  predicate ExtensionTail(t: string) {
    t == "" || t == "\n" || (|t| > 0 && t[0] == '?' && forall k :: 1 <= k < |t| - 1 ==> t[k] != '\n')
  }

  /** `IMAGE_EXT_RE` matches starting at index `i` of `u`, taking alternative `e`. */
  predicate ExtensionMatch(u: string, i: nat, e: string) {
    i < |u| && u[i] == '.' && MatchesAtIgnoringCase(u, i + 1, e) && ExtensionTail(u[i + 1 + |e|..])
  }

  /** The alternation `(?:png|jpg|jpeg|gif|webp)` at index `i`, alternatives tried in order. */
  function AnyExtensionAt(u: string, i: nat, exts: seq<string>): bool
    decreases |exts|
  {
    exts != [] && (ExtensionMatch(u, i, exts[0]) || AnyExtensionAt(u, i, exts[1..]))
  }

  /** `IMAGE_EXT_RE.search(u)` from index `i` on: every start index is tried in turn. */
  function SearchExtension(u: string, i: nat): bool
    decreases |u| - i
  {
    i < |u| && (AnyExtensionAt(u, i, ImageExtensions) || SearchExtension(u, i + 1))
  }

  predicate OccursAt(s: string, h: string, i: nat) {
    i + |h| <= |s| && s[i..i + |h|] == h
  }

  /** Python's `h in s`, searching from index `i` on. */
  function OccursFrom(s: string, h: string, i: nat): bool
    decreases |s| - i
  {
    i + |h| <= |s| && (s[i..i + |h|] == h || OccursFrom(s, h, i + 1))
  }

  /** `any(host in u for host in hosts)`. */
  function AnyHost(u: string, hosts: seq<string>): bool
    decreases |hosts|
  {
    hosts != [] && (OccursFrom(u, hosts[0], 0) || AnyHost(u, hosts[1..]))
  }

  /** `is_image_url(u)`: an image extension at the end (optionally before a query),
      or a known image host anywhere. */
  function IsImageUrl(u: string): bool {
    SearchExtension(u, 0) || AnyHost(u, CdnHosts)
  }

  /** Some `.ext` (any case), followed by the end or by a query, occurs in `u`. */
  ghost predicate HasImageExtension(u: string) {
    exists i: nat, e :: e in ImageExtensions && ExtensionMatch(u, i, e)
  }

  /** One of the CDN host names occurs in `u`. */
  ghost predicate HasCdnHost(u: string) {
    exists h, i: nat :: h in CdnHosts && OccursAt(u, h, i)
  }

  lemma {:induction false} AnyExtensionAtSpec(u: string, i: nat, exts: seq<string>)
    ensures AnyExtensionAt(u, i, exts) <==> exists e :: e in exts && ExtensionMatch(u, i, e)
    decreases |exts|
  {
    if exts != [] {
      AnyExtensionAtSpec(u, i, exts[1..]);
      assert forall e :: e in exts <==> e == exts[0] || e in exts[1..];
    }
  }

  lemma {:induction false} SearchExtensionSpec(u: string, i: nat)
    ensures SearchExtension(u, i) <==> exists j: nat, e :: i <= j && e in ImageExtensions && ExtensionMatch(u, j, e)
    decreases |u| - i
  {
    if i < |u| {
      SearchExtensionSpec(u, i + 1);
      AnyExtensionAtSpec(u, i, ImageExtensions);
      if exists j: nat, e :: i <= j && e in ImageExtensions && ExtensionMatch(u, j, e) {
        var j: nat, e :| i <= j && e in ImageExtensions && ExtensionMatch(u, j, e);
        if j == i {
          assert AnyExtensionAt(u, i, ImageExtensions);
        } else {
          assert SearchExtension(u, i + 1);
        }
      }
    }
  }

  lemma {:induction false} OccursFromSpec(s: string, h: string, i: nat)
    ensures OccursFrom(s, h, i) <==> exists j: nat :: i <= j && OccursAt(s, h, j)
    decreases |s| - i
  {
    if i + |h| <= |s| {
      OccursFromSpec(s, h, i + 1);
      if s[i..i + |h|] == h {
        assert OccursAt(s, h, i);
      }
      if exists j: nat :: i <= j && OccursAt(s, h, j) {
        var j: nat :| i <= j && OccursAt(s, h, j);
        if j > i {
          assert OccursFrom(s, h, i + 1);
        } else {
          assert s[i..i + |h|] == h;
        }
      }
    }
  }

  lemma {:induction false} AnyHostSpec(u: string, hosts: seq<string>)
    ensures AnyHost(u, hosts) <==> exists h, i: nat :: h in hosts && OccursAt(u, h, i)
    decreases |hosts|
  {
    if hosts != [] {
      AnyHostSpec(u, hosts[1..]);
      OccursFromSpec(u, hosts[0], 0);
      if exists h, i: nat :: h in hosts && OccursAt(u, h, i) {
        var h, i: nat :| h in hosts && OccursAt(u, h, i);
        if h != hosts[0] {
          assert h in hosts[1..];
        }
      }
    }
  }

  /** `is_image_url(u)` holds exactly when `u` has an image extension at its end
      (possibly before a query) or contains one of the CDN host names. */
  lemma IsImageUrlSpec(u: string)
    ensures IsImageUrl(u) <==> HasImageExtension(u) || HasCdnHost(u)
  {
    SearchExtensionSpec(u, 0);
    AnyHostSpec(u, CdnHosts);
  }

  // ------------------------------------------------------- URL_RE.findall

  datatype Span = Span(start: nat, end: nat)

  /** What `https?://[^\s]+` (ignoring case) matches as a whole: an `http://` or
      `https://` scheme, at least one more character, and no whitespace. */
  predicate UrlShaped(s: string) {
    && NoSpace(s)
    && ((|s| > 7 && MatchesAtIgnoringCase(s, 0, "http://")) || (|s| > 8 && MatchesAtIgnoringCase(s, 0, "https://")))
  }

  /** Length of the scheme `https?://` at index `p`, or 0 when there is none. */
  function SchemeLength(t: string, p: nat): nat {
    if MatchesAtIgnoringCase(t, p, "https://") then 8
    else if MatchesAtIgnoringCase(t, p, "http://") then 7
    else 0
  }

  /** End of the run of non-whitespace characters starting at `q` (greedy `[^\s]+`). */
  function RunEnd(t: string, q: nat): (r: nat)
    requires q <= |t|
    ensures q <= r <= |t|
    ensures forall k :: q <= k < r ==> !IsSpace(t[k])
    ensures r == |t| || IsSpace(t[r])
    decreases |t| - q
  {
    if q < |t| && !IsSpace(t[q]) then RunEnd(t, q + 1) else q
  }

  /** The end of the `URL_RE` match that starts at index `p`, if one does. */
  function UrlAt(t: string, p: nat): (r: Option<nat>)
    requires p <= |t|
    ensures r.Some? ==> p < r.value <= |t|
  {
    var n := SchemeLength(t, p);
    if n == 0 then None
    else
      var e := RunEnd(t, p + n);
      if e == p + n then None else Some(e)
  }

  lemma MatchesInSlice(t: string, p: nat, e: nat, word: string)
    requires p <= e <= |t| && p + |word| <= e
    ensures MatchesAtIgnoringCase(t[p..e], 0, word) <==> MatchesAtIgnoringCase(t, p, word)
  {
    assert forall k :: 0 <= k < |word| ==> t[p..e][k] == t[p + k];
  }

  /** A scheme matched ignoring case consists of non-whitespace characters. */
  lemma SchemeHasNoSpace(t: string, p: nat, word: string)
    requires MatchesAtIgnoringCase(t, p, word) && NoSpace(word)
    ensures forall k :: p <= k < p + |word| ==> !IsSpace(t[k])
  {
    forall k | p <= k < p + |word| ensures !IsSpace(t[k]) {
      assert LowerChar(t[p + (k - p)]) == word[k - p];
    }
  }

  /** A match found at `p` is a URL-shaped slice that cannot be extended (greedy),
      and when none is found no slice starting at `p` is URL-shaped. */
  lemma UrlAtSpec(t: string, p: nat)
    requires p <= |t|
    ensures UrlAt(t, p).Some? ==>
      var e := UrlAt(t, p).value;
      UrlShaped(t[p..e]) && (e == |t| || IsSpace(t[e]))
    ensures UrlAt(t, p).None? ==> forall e :: p < e <= |t| ==> !UrlShaped(t[p..e])
  {
    var n := SchemeLength(t, p);
    if UrlAt(t, p).Some? {
      var e := UrlAt(t, p).value;
      var s := t[p..e];
      assert forall k :: 0 <= k < |s| ==> s[k] == t[p + k];
      if n == 8 {
        MatchesInSlice(t, p, e, "https://");
        assert NoSpace("https://");
        SchemeHasNoSpace(t, p, "https://");
      } else {
        MatchesInSlice(t, p, e, "http://");
        assert NoSpace("http://");
        SchemeHasNoSpace(t, p, "http://");
      }
    } else {
      forall e | p < e <= |t| ensures !UrlShaped(t[p..e]) {
        if UrlShaped(t[p..e]) {
          ShapedSliceMatches(t, p, e);
          assert false;
        }
      }
    }
  }

  /** Any URL-shaped slice starting at `p` makes the search at `p` succeed. */
  lemma ShapedSliceMatches(t: string, p: nat, e: nat)
    requires p < e <= |t| && UrlShaped(t[p..e])
    ensures UrlAt(t, p).Some?
  {
    var s := t[p..e];
    if |s| > 8 && MatchesAtIgnoringCase(s, 0, "https://") {
      MatchesInSlice(t, p, e, "https://");
      assert s[8] == t[p + 8];
    } else {
      MatchesInSlice(t, p, e, "http://");
      assert s[7] == t[p + 7];
      assert !MatchesAtIgnoringCase(t, p, "https://") by {
        assert LowerChar(t[p + 4]) == "http://"[4] == ':';
        assert "https://"[4] == 's';
      }
    }
  }

  /** `URL_RE.findall(t)` scanning from index `p`: leftmost matches, each search
      resuming where the previous match ended. */
  function FindUrls(t: string, p: nat): (spans: seq<Span>)
    requires p <= |t|
    ensures forall k :: 0 <= k < |spans| ==>
      p <= spans[k].start < spans[k].end <= |t| && UrlAt(t, spans[k].start) == Some(spans[k].end)
    ensures forall k, j :: 0 <= k < j < |spans| ==> spans[k].end <= spans[j].start
    decreases |t| - p
  {
    if p == |t| then []
    else
      match UrlAt(t, p)
      case Some(e) => [Span(p, e)] + FindUrls(t, e)
      case None => FindUrls(t, p + 1)
  }

  /** No match is skipped: every index where `URL_RE` could match lies within one
      of the spans found (at its start, or inside an earlier, overlapping match). */
  lemma {:induction false} FindUrlsComplete(t: string, p: nat, q: nat)
    requires p <= q < |t| && UrlAt(t, q).Some?
    ensures exists k :: 0 <= k < |FindUrls(t, p)| && FindUrls(t, p)[k].start <= q < FindUrls(t, p)[k].end
    decreases |t| - p
  {
    var spans := FindUrls(t, p);
    match UrlAt(t, p)
    case Some(e) =>
      if q < e {
        assert spans[0] == Span(p, e);
      } else {
        FindUrlsComplete(t, e, q);
        var k :| 0 <= k < |FindUrls(t, e)| && FindUrls(t, e)[k].start <= q < FindUrls(t, e)[k].end;
        assert spans[k + 1] == FindUrls(t, e)[k];
      }
    case None =>
      FindUrlsComplete(t, p + 1, q);
  }

  /** The text of one match: the whole span, which is URL-shaped. */
  function SpanText(t: string, sp: Span): (u: string)
    requires sp.start < sp.end <= |t| && UrlAt(t, sp.start) == Some(sp.end)
    ensures |u| == sp.end - sp.start && OccursAt(t, u, sp.start) && UrlShaped(u)
  {
    UrlAtSpec(t, sp.start);
    t[sp.start..sp.end]
  }

  /** The strings `URL_RE.findall(t)` returns, in order. */
  function UrlMatches(t: string): (urls: seq<string>)
    ensures |urls| == |FindUrls(t, 0)|
    ensures forall k :: 0 <= k < |urls| ==>
      OccursAt(t, urls[k], FindUrls(t, 0)[k].start) && UrlShaped(urls[k])
    ensures forall k :: 0 <= k < |urls| ==> |urls[k]| == FindUrls(t, 0)[k].end - FindUrls(t, 0)[k].start
  {
    var spans := FindUrls(t, 0);
    seq(|spans|, k requires 0 <= k < |spans| => SpanText(t, spans[k]))
  }

  /** The `for ... return` loop of `extract_first_image_url`: the first image-like URL. */
  function FirstImage(urls: seq<string>): (r: Option<string>)
    ensures r.None? <==> forall k :: 0 <= k < |urls| ==> !IsImageUrl(urls[k])
    ensures r.Some? ==> exists k :: 0 <= k < |urls| && urls[k] == r.value && IsImageUrl(r.value) &&
                                    forall j :: 0 <= j < k ==> !IsImageUrl(urls[j])
    decreases |urls|
  {
    if urls == [] then None
    else if IsImageUrl(urls[0]) then Some(urls[0])
    else
      var r := FirstImage(urls[1..]);
      assert forall k :: 1 <= k < |urls| ==> urls[k] == urls[1..][k - 1];
      r
  }

  /** `extract_first_image_url(text)`: the first URL of the text that `is_image_url`
      accepts; a missing text counts as empty. The result is a slice of the text
      shaped like a URL, image-like, and every earlier URL match was rejected. */
  function ExtractFirstImageUrl(text: Option<string>): (r: Option<string>)
    ensures r.Some? ==> IsImageUrl(r.value) && UrlShaped(r.value)
    ensures r.Some? ==> exists i: nat :: OccursAt(text.GetOr(""), r.value, i)
    ensures r.Some? ==> exists k :: 0 <= k < |UrlMatches(text.GetOr(""))| && UrlMatches(text.GetOr(""))[k] == r.value &&
                                    forall j :: 0 <= j < k ==> !IsImageUrl(UrlMatches(text.GetOr(""))[j])
    ensures r.None? <==> forall k :: 0 <= k < |UrlMatches(text.GetOr(""))| ==> !IsImageUrl(UrlMatches(text.GetOr(""))[k])
  {
    FirstImage(UrlMatches(text.GetOr("")))
  }

  /** A missing text, or a text in which no slice is URL-shaped, yields no image. */
  lemma UrlFreeTextHasNoImage(text: Option<string>)
    requires forall i, j :: 0 <= i < j <= |text.GetOr("")| ==> !UrlShaped(text.GetOr("")[i..j])
    ensures ExtractFirstImageUrl(text) == None
  {
    var t := text.GetOr("");
    var spans := FindUrls(t, 0);
    if |spans| > 0 {
      UrlAtSpec(t, spans[0].start);
    }
  }
}
