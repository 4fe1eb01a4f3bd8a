/**
  The download link `handleDownload` opens in a new tab: the backend's
  `/api/download` endpoint with the page's URL, percent-encoded, and the
  chosen format id, appended as it is.
*/
module Download {
  import opened Wrappers
  import opened UriComponent

  const DownloadPath := "/api/download?url="
  const FormatIdParam := "&format_id="

  /**
    The link for a format: `backend + "/api/download?url=" +
    encodeURIComponent(url) + "&format_id=" + formatId`. The format id is not
    encoded; the encoded URL holds no `&` or `#`, so it can neither end the
    query nor start a fragment.
  */
  function DownloadUrl(backend: string, url: string, formatId: string): (r: string)
    ensures var start, e := backend + DownloadPath, EncodeURIComponent(url);
      && |r| == |start| + |e| + |FormatIdParam| + |formatId|
      && r[..|start|] == start
      && r[|start|..|start| + |e|] == e
      && r[|start| + |e|..|r| - |formatId|] == FormatIdParam
      && r[|r| - |formatId|..] == formatId
      && forall i :: |start| <= i < |start| + |e| ==> r[i] !in {'&', '#'}
  {
    var start, e := backend + DownloadPath, EncodeURIComponent(url);
    ConcatLayout(start, e, FormatIdParam, formatId);
    EncodedHasNoDelimiters(url);
    start + e + FormatIdParam + formatId
  }

  /** Where each of four concatenated parts sits in the whole. */
  lemma ConcatLayout(a: string, b: string, c: string, d: string)
    ensures var r := a + b + c + d;
      && |r| == |a| + |b| + |c| + |d|
      && r[..|a|] == a
      && r[|a|..|a| + |b|] == b
      && r[|a| + |b|..|r| - |d|] == c
      && r[|r| - |d|..] == d
      && forall i :: |a| <= i < |a| + |b| ==> r[i] == b[i - |a|]
  {
    var r := a + b + c + d;
    assert r == a + (b + (c + d));
    assert r[|a|..] == b + (c + d);
    assert r[|a| + |b|..] == c + d;
  }

  /** The first position of `c` in `s`, if any. */
  function IndexOf(s: string, c: char): (r: Option<nat>)
    ensures r.Some? ==> r.value < |s| && s[r.value] == c
    ensures r.Some? ==> forall i :: 0 <= i < r.value ==> s[i] != c
    ensures r.None? ==> forall i :: 0 <= i < |s| ==> s[i] != c
  {
    if s == [] then None
    else if s[0] == c then Some(0)
    else match IndexOf(s[1..], c)
      case None => None
      case Some(k) => Some(k + 1)
  }

  /**
    One way to split the query of a download link: the `url` value runs
    to the first `&`, which must start `&format_id=`; the format id is
    everything after `format_id=`. The `url` value is still percent-encoded.
  */
  function ReadQuery(query: string): Option<(string, string)>
  {
    match IndexOf(query, '&')
    case None => None
    case Some(k) =>
      var tail := query[k..];
      if |tail| < |FormatIdParam| || tail[..|FormatIdParam|] != FormatIdParam then None
      else Some((query[..k], tail[|FormatIdParam|..]))
  }

  /** One way to read a download link: its address, then its query, then the percent-decoded `url`. */
  function ReadDownloadUrl(backend: string, link: string): Option<(string, string)>
  {
    var prefix := backend + DownloadPath;
    if |link| < |prefix| || link[..|prefix|] != prefix then None
    else
      match ReadQuery(link[|prefix|..])
      case None => None
      case Some((encoded, formatId)) =>
        match DecodeURIComponent(encoded)
        case None => None
        case Some(url) => Some((url, formatId))
  }

  /** In `a + b`, where `a` has no `c` and `b` starts with one, the first `c` is at `|a|`. */
  lemma {:induction false} IndexOfAfter(a: string, b: string, c: char)
    requires forall i :: 0 <= i < |a| ==> a[i] != c
    requires b != [] && b[0] == c
    ensures IndexOf(a + b, c) == Some(|a|)
  {
    if a != [] {
      assert (a + b)[1..] == a[1..] + b;
      IndexOfAfter(a[1..], b, c);
    } else {
      assert a + b == b;
    }
  }

  /** The encoded URL holds none of the characters that delimit a query: `&`, `=`, `?`, `#`. */
  lemma EncodedHasNoDelimiters(url: string)
    ensures forall i :: 0 <= i < |EncodeURIComponent(url)| ==>
      EncodeURIComponent(url)[i] !in {'&', '=', '?', '#'}
  {
    var e := EncodeURIComponent(url);
    forall i | 0 <= i < |e| ensures e[i] !in {'&', '=', '?', '#'} {
      assert IsEncodedChar(e[i]);
    }
  }

  /** The first `&` after `?url=` is the one that starts `&format_id=`. */
  lemma FirstAmpersandStartsFormatId(url: string, formatId: string)
    ensures IndexOf(EncodeURIComponent(url) + FormatIdParam + formatId, '&') == Some(|EncodeURIComponent(url)|)
  {
    var e := EncodeURIComponent(url);
    EncodedHasNoDelimiters(url);
    assert e + FormatIdParam + formatId == e + (FormatIdParam + formatId);
    IndexOfAfter(e, FormatIdParam + formatId, '&');
  }

  /** A query whose `url` value holds no `&` splits back into that value and the format id. */
  lemma ReadQueryOf(e: string, formatId: string)
    requires forall i :: 0 <= i < |e| ==> e[i] != '&'
    ensures ReadQuery(e + FormatIdParam + formatId) == Some((e, formatId))
  {
    var tail := FormatIdParam + formatId;
    var query := e + FormatIdParam + formatId;
    assert query == e + tail;
    IndexOfAfter(e, tail, '&');
    assert query[..|e|] == e && query[|e|..] == tail;
    assert tail[..|FormatIdParam|] == FormatIdParam && tail[|FormatIdParam|..] == formatId;
  }

  /** The query of a download link splits back into the encoded URL and the format id it was built from. */
  lemma ReadBuiltQuery(url: string, formatId: string)
    ensures ReadQuery(EncodeURIComponent(url) + FormatIdParam + formatId) == Some((EncodeURIComponent(url), formatId))
  {
    EncodedHasNoDelimiters(url);
    ReadQueryOf(EncodeURIComponent(url), formatId);
  }

  /** A link whose `url` value holds no `&` passes the address check and splits back into that value and the format id. */
  lemma ReadLinkOf(backend: string, e: string, formatId: string)
    requires forall i :: 0 <= i < |e| ==> e[i] != '&'
    ensures var prefix, link := backend + DownloadPath, backend + DownloadPath + e + FormatIdParam + formatId;
      && |prefix| <= |link| && link[..|prefix|] == prefix
      && ReadQuery(link[|prefix|..]) == Some((e, formatId))
  {
    var prefix, query := backend + DownloadPath, e + FormatIdParam + formatId;
    var link := backend + DownloadPath + e + FormatIdParam + formatId;
    assert link == prefix + query;
    assert link[..|prefix|] == prefix && link[|prefix|..] == query;
    ReadQueryOf(e, formatId);
  }

  /** Reading a download link back gives the page's URL and the format id it was built from. */
  lemma DownloadUrlRoundTrip(backend: string, url: string, formatId: string)
    ensures ReadDownloadUrl(backend, DownloadUrl(backend, url, formatId)) == Some((url, formatId))
  {
    EncodedHasNoDelimiters(url);
    ReadLinkOf(backend, EncodeURIComponent(url), formatId);
    DecodeEncode(url);
  }
}
