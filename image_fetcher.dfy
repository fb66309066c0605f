/**
 * The deterministic parts of `ImageFetcher`: the file-name slug, the
 * rewriting of Google Drive links, the file extension of a download, and the
 * guards that return `None` before any request is made. The HTTP requests and
 * the random file prefix are parameters.
 */
module ImageFetcher {
  import opened Wrappers
  import opened Text
  import opened Scan

  // ----- _safe_name -----

  const SlugLength := 40

  /** What `_safe_name` keeps of a character after lowering: `isalnum()`, '_' or '-'. */
  predicate SlugChar(c: char)
  {
    IsAlnum(c) || c == '_' || c == '-'
  }

  /** The characters of s that satisfy SlugChar, in order. */
  function KeepSlugChars(s: string): (r: string)
    ensures |r| <= |s|
    ensures forall k :: 0 <= k < |r| ==> SlugChar(r[k])
    ensures forall k :: 0 <= k < |r| ==> r[k] in s
  {
    if s == [] then []
    else
      var rest := KeepSlugChars(s[1..]);
      if SlugChar(s[0]) then [s[0]] + rest else rest
  }

  /** `_safe_name`: lowered, spaces made underscores, other characters dropped, at most 40 left. */
  function SafeName(text: string): (r: string)
    ensures |r| <= SlugLength
    ensures forall k :: 0 <= k < |r| ==> SlugChar(r[k]) && !('A' <= r[k] <= 'Z')
  {
    var kept := KeepSlugChars(Replace(Lower(text), " ", "_"));
    LowerKeepsNoUpper(text, kept);
    Prefix(kept, SlugLength)
  }

  /** Lowering leaves no upper-case letter, and replacing ' ' with '_' and filtering add none. */
  lemma LowerKeepsNoUpper(t: string, kept: string)
    requires kept == KeepSlugChars(Replace(Lower(t), " ", "_"))
    ensures forall k :: 0 <= k < |kept| ==> !('A' <= kept[k] <= 'Z')
  {
    var u := Replace(Lower(t), " ", "_");
    ReplaceCharIsMap(Lower(t), ' ', '_');
    forall k | 0 <= k < |kept| ensures !('A' <= kept[k] <= 'Z') {
      assert kept[k] in u;
      var j :| 0 <= j < |u| && u[j] == kept[k];
      assert u[j] == (if Lower(t)[j] == ' ' then '_' else Lower(t)[j]);
    }
  }

  /** Replacing a one-character pattern by one character maps each character on its own. */
  lemma {:induction false} ReplaceCharIsMap(s: string, a: char, b: char)
    ensures |Replace(s, [a], [b])| == |s|
    ensures forall k :: 0 <= k < |s| ==> Replace(s, [a], [b])[k] == if s[k] == a then b else s[k]
    decreases |s|
  {
    if s != [] {
      ReplaceCharIsMap(s[1..], a, b);
      assert StartsAt(s, 0, [a]) <==> s[0] == a by {
        assert s[0..1] == [s[0]];
      }
      var r := Replace(s, [a], [b]);
      assert r == [if s[0] == a then b else s[0]] + Replace(s[1..], [a], [b]);
    }
  }

  /** A character that `_safe_name` neither drops nor changes except for the space. */
  predicate PlainChar(c: char)
  {
    ('a' <= c <= 'z') || IsDigit(c) || c == '_' || c == '-' || c == ' '
  }

  lemma {:induction false} KeepAllSlugChars(s: string)
    requires forall k :: 0 <= k < |s| ==> SlugChar(s[k])
    ensures KeepSlugChars(s) == s
  {
    if s != [] {
      KeepAllSlugChars(s[1..]);
    }
  }

  /** A name made of lower-case letters, digits, '_', '-' and spaces loses nothing but its spaces, which become '_'. */
  lemma SafeNameOfPlainText(text: string)
    requires forall k :: 0 <= k < |text| ==> PlainChar(text[k])
    ensures SafeName(text) == Prefix(seq(|text|, k requires 0 <= k < |text| => if text[k] == ' ' then '_' else text[k]), SlugLength)
  {
    hide KeepSlugChars;
    var l := Lower(text);
    assert l == text by {
      forall k | 0 <= k < |text| ensures l[k] == text[k] { }
    }
    var u := Replace(l, " ", "_");
    ReplaceCharIsMap(text, ' ', '_');
    var m := seq(|text|, k requires 0 <= k < |text| => if text[k] == ' ' then '_' else text[k]);
    assert u == m;
    KeepAllSlugChars(u);
  }

  // ----- _convert_google_drive_url -----

  /** A character of `[a-zA-Z0-9_-]`. */
  predicate IdChar(c: char)
  {
    IsAlnum(c) || c == '_' || c == '-'
  }

  /** The end of the run of IdChar characters from i. */
  function IdEnd(s: string, i: nat): (j: nat)
    requires i <= |s|
    ensures i <= j <= |s|
    ensures forall k :: i <= k < j ==> IdChar(s[k])
    ensures j == |s| || !IdChar(s[j])
    decreases |s| - i
  {
    if i < |s| && IdChar(s[i]) then IdEnd(s, i + 1) else i
  }

  /** `/d/([a-zA-Z0-9_-]+)` matches at position i. */
  predicate DriveIdAt(s: string, i: nat)
  {
    StartsAt(s, i, "/d/") && i + 3 < |s| && IdChar(s[i + 3])
  }

  /** `re.search(r'/d/([a-zA-Z0-9_-]+)', url).group(1)`, when there is a match. */
  function DriveFileId(url: string): (r: Option<string>)
    ensures r.Some? ==> r.value != [] && forall k :: 0 <= k < |r.value| ==> IdChar(r.value[k])
  {
    match FirstFrom(|url|, (i: nat) => DriveIdAt(url, i), 0)
    case None => None
    case Some(i) => Some(url[i + 3..IdEnd(url, i + 3)])
  }

  const DirectPrefix := "https://drive.google.com/uc?export=view&id="

  predicate IsDriveHost(url: string)
  {
    Contains(url, "drive.google.com") || Contains(url, "docs.google.com")
  }

  predicate IsShareHost(url: string)
  {
    Contains(url, "photos.app.goo.gl") || Contains(url, "share.google") || Contains(url, "photos.google.com")
  }

  /**
   * `_convert_google_drive_url`. `resolve` follows the share link's
   * redirects and gives the final URL, or `None` when the request raised.
   */
  function ConvertGoogleDriveUrl(url: string, resolve: string -> Option<string>): (r: string)
    ensures !IsDriveHost(url) && !IsShareHost(url) ==> r == url
  {
    if IsDriveHost(url) && DriveFileId(url).Some? then DirectPrefix + DriveFileId(url).value
    else if IsShareHost(url) then
      match resolve(url)
      case None => url
      case Some(finalUrl) => if Contains(finalUrl, "photos.google.com") then url else finalUrl
    else url
  }

  /** A Drive link "…/d/<id>…" becomes the direct view link of that id. */
  lemma DriveLinkConverted(pre: string, id: string, post: string, resolve: string -> Option<string>)
    requires IsDriveHost(pre)
    requires !Contains(pre + "/", "/d/")
    requires id != [] && forall k :: 0 <= k < |id| ==> IdChar(id[k])
    requires post == [] || !IdChar(post[0])
    ensures ConvertGoogleDriveUrl(pre + "/d/" + id + post, resolve) == DirectPrefix + id
  {
    var url := pre + "/d/" + id + post;
    HostKept(pre, "/d/" + id + post);
    assert url == pre + ("/d/" + id + post);
    FirstDriveId(pre, id, post);
    hide IsDriveHost, IsShareHost, DriveIdAt, IdEnd, ConvertGoogleDriveUrl, FirstFrom;
    DriveFileIdIs(url, |pre|, |pre| + 3 + |id|);
    assert url[|pre| + 3..|pre| + 3 + |id|] == id;
    ConvertWithId(url, resolve);
  }

  lemma DriveFileIdIs(url: string, n: nat, e: nat)
    requires FirstFrom(|url|, (i: nat) => DriveIdAt(url, i), 0) == Some(n)
    requires IdEnd(url, n + 3) == e
    ensures DriveFileId(url) == Some(url[n + 3..e])
  {
    hide IdEnd, FirstFrom;
  }

  lemma ConvertWithId(url: string, resolve: string -> Option<string>)
    requires IsDriveHost(url) && DriveFileId(url).Some?
    ensures ConvertGoogleDriveUrl(url, resolve) == DirectPrefix + DriveFileId(url).value
  {
    hide IsDriveHost, IsShareHost, DriveFileId;
  }

  /** A host named in the front of a URL is named in the URL. */
  lemma HostKept(pre: string, rest: string)
    requires IsDriveHost(pre)
    ensures IsDriveHost(pre + rest)
  {
    var url := pre + rest;
    assert url[..|pre|] == pre;
    if Contains(pre, "drive.google.com") {
      ContainsInSlice(url, "drive.google.com", 0, |pre|);
    } else {
      ContainsInSlice(url, "docs.google.com", 0, |pre|);
    }
  }

  /** The search finds the "/d/" after `pre`, and its group is exactly `id`. */
  lemma FirstDriveId(pre: string, id: string, post: string)
    requires !Contains(pre + "/", "/d/")
    requires id != [] && forall k :: 0 <= k < |id| ==> IdChar(id[k])
    requires post == [] || !IdChar(post[0])
    ensures var url := pre + "/d/" + id + post;
      FirstFrom(|url|, (i: nat) => DriveIdAt(url, i), 0) == Some(|pre|)
      && IdEnd(url, |pre| + 3) == |pre| + 3 + |id|
  {
    var url := pre + "/d/" + id + post;
    var n := |pre|;
    assert url[n..n + 3] == "/d/";
    assert url[n + 3] == id[0];
    assert DriveIdAt(url, n);
    forall j | 0 <= j < n ensures !DriveIdAt(url, j) {
      NoEarlierDriveId(pre, url, j);
    }
    FirstFromIsLeast(|url|, (i: nat) => DriveIdAt(url, i), 0, n);
    forall k | n + 3 <= k < n + 3 + |id| ensures IdChar(url[k]) {
      assert url[k] == id[k - n - 3];
    }
    IdRunEnds(url, n + 3, |id|);
  }

  /** No "/d/" starts inside `pre` when `pre + "/"` holds none. */
  lemma NoEarlierDriveId(pre: string, url: string, j: nat)
    requires !Contains(pre + "/", "/d/")
    requires |url| >= |pre| + 3 && url[..|pre| + 3] == pre + "/d/"
    requires j < |pre|
    ensures !DriveIdAt(url, j)
  {
    hide Contains;
    var w := pre + "/";
    if j + 1 < |pre| {
      if StartsAt(url, j, "/d/") {
        assert url[j..j + 3] == url[..|pre| + 3][j..j + 3];
        assert w[j..j + 3] == url[j..j + 3];
        ContainsAt(w, "/d/", j);
      }
    } else {
      assert url[j + 2] == url[..|pre| + 3][j + 2];
      assert url[j + 2] == 'd';
    }
  }

  /** The IdChar run from i stops exactly after len characters when the next one is not an IdChar. */
  lemma {:induction false} IdRunEnds(s: string, i: nat, len: nat)
    requires i + len <= |s|
    requires forall k :: i <= k < i + len ==> IdChar(s[k])
    requires i + len == |s| || !IdChar(s[i + len])
    ensures IdEnd(s, i) == i + len
    decreases len
  {
    if len > 0 {
      IdRunEnds(s, i + 1, len - 1);
    }
  }

  /** A share link resolves to where it redirects, unless that is a Photos page or the request fails. */
  lemma ShareLinkResolved(url: string, resolve: string -> Option<string>)
    requires !(IsDriveHost(url) && DriveFileId(url).Some?)
    requires IsShareHost(url)
    ensures resolve(url).None? ==> ConvertGoogleDriveUrl(url, resolve) == url
    ensures resolve(url).Some? && Contains(resolve(url).value, "photos.google.com") ==> ConvertGoogleDriveUrl(url, resolve) == url
    ensures resolve(url).Some? && !Contains(resolve(url).value, "photos.google.com") ==> ConvertGoogleDriveUrl(url, resolve) == resolve(url).value
  {
  }

  /** A Drive link without a file id, and not a share link, is left as it is. */
  lemma DriveLinkWithoutId(url: string, resolve: string -> Option<string>)
    requires DriveFileId(url).None? && !IsShareHost(url)
    ensures ConvertGoogleDriveUrl(url, resolve) == url
  {
  }

  // ----- _download_image, download_from_url, fetch_image -----

  /** The file extension `_download_image` picks from the (lowered) content type and the URL. */
  function Extension(contentType: string, imgUrl: string): (ext: string)
    ensures ext in [".png", ".gif", ".webp", ".jpg"]
    ensures ext == ".jpg" <==>
      && !Contains(contentType, "png") && !EndsWith(Lower(imgUrl), ".png")
      && !Contains(contentType, "gif") && !EndsWith(Lower(imgUrl), ".gif")
      && !Contains(contentType, "webp") && !EndsWith(Lower(imgUrl), ".webp")
  {
    var u := Lower(imgUrl);
    if Contains(contentType, "png") || EndsWith(u, ".png") then ".png"
    else if Contains(contentType, "gif") || EndsWith(u, ".gif") then ".gif"
    else if Contains(contentType, "webp") || EndsWith(u, ".webp") then ".webp"
    else ".jpg"
  }

  /**
   * `_download_image`. `get` performs the request and writes the file,
   * giving the response's content type, or `None` when either raised; `hex`
   * is the `uuid4().hex` prefix.
   */
  function DownloadImage(storageDir: string, imgUrl: string, query: string,
                         get: string -> Option<string>, hex: string): (r: Option<string>)
    ensures get(imgUrl).None? ==> r.None?
    ensures r.Some? ==> exists ext :: (ext in [".png", ".gif", ".webp", ".jpg"]
      && r.value == storageDir + "/" + hex + "_" + SafeName(query) + ext)
  {
    match get(imgUrl)
    case None => None
    case Some(contentType) =>
      var ext := Extension(Lower(contentType), imgUrl);
      Some(storageDir + "/" + hex + "_" + SafeName(query) + ext)
  }

  /** `download_from_url`: a blank URL, or one that is not http(s) once stripped, is refused. */
  function DownloadFromUrl(storageDir: string, imgUrl: string, identifier: string,
                           resolve: string -> Option<string>, get: string -> Option<string>, hex: string): (r: Option<string>)
    ensures Strip(imgUrl) == [] ==> r.None?
    ensures !StartsWith(Strip(imgUrl), "http://") && !StartsWith(Strip(imgUrl), "https://") ==> r.None?
  {
    if Strip(imgUrl) == [] then None
    else
      var url := Strip(imgUrl);
      if !(StartsWith(url, "http://") || StartsWith(url, "https://")) then None
      else DownloadImage(storageDir, ConvertGoogleDriveUrl(url, resolve), identifier, get, hex)
  }

  /** The guards of `download_from_url` decide before any request: the result does not depend on the network. */
  lemma DownloadGuardsBeforeNetwork(storageDir: string, imgUrl: string, identifier: string,
                                    resolve1: string -> Option<string>, get1: string -> Option<string>,
                                    resolve2: string -> Option<string>, get2: string -> Option<string>, hex: string)
    requires Strip(imgUrl) == [] || !(StartsWith(Strip(imgUrl), "http://") || StartsWith(Strip(imgUrl), "https://"))
    ensures DownloadFromUrl(storageDir, imgUrl, identifier, resolve1, get1, hex) == None
    ensures DownloadFromUrl(storageDir, imgUrl, identifier, resolve1, get1, hex)
         == DownloadFromUrl(storageDir, imgUrl, identifier, resolve2, get2, hex)
  {
  }

  /** A valid direct link goes to the download, under its stripped form. */
  lemma DownloadDirectLink(storageDir: string, imgUrl: string, identifier: string,
                           resolve: string -> Option<string>, get: string -> Option<string>, hex: string)
    requires StartsWith(Strip(imgUrl), "https://")
    requires !IsDriveHost(Strip(imgUrl)) && !IsShareHost(Strip(imgUrl))
    ensures DownloadFromUrl(storageDir, imgUrl, identifier, resolve, get, hex)
         == DownloadImage(storageDir, Strip(imgUrl), identifier, get, hex)
  {
    assert Strip(imgUrl) != [];
  }

  /**
   * `fetch_image`. `unsplash` is the search request, giving the image URL
   * of the reply (`urls.regular`, else `urls.full`), or `None` when it raised.
   */
  function FetchImage(storageDir: string, unsplashKey: Option<string>, query: string,
                      unsplash: string -> Option<string>, get: string -> Option<string>, hex: string): (r: Option<string>)
    ensures Strip(query) == [] ==> r.None?
    ensures !IsSet(unsplashKey) ==> r.None?
    ensures r.Some? ==> unsplash(query).Some? && unsplash(query).value != []
  {
    if Strip(query) == [] then None
    else if !IsSet(unsplashKey) then None
    else
      match unsplash(query)
      case None => None
      case Some(imgUrl) => if imgUrl == [] then None else DownloadImage(storageDir, imgUrl, query, get, hex)
  }

  /** The guards of `fetch_image` decide before any request. */
  lemma FetchGuardsBeforeNetwork(storageDir: string, unsplashKey: Option<string>, query: string,
                                 unsplash1: string -> Option<string>, get1: string -> Option<string>,
                                 unsplash2: string -> Option<string>, get2: string -> Option<string>, hex: string)
    requires Strip(query) == [] || !IsSet(unsplashKey)
    ensures FetchImage(storageDir, unsplashKey, query, unsplash1, get1, hex)
         == FetchImage(storageDir, unsplashKey, query, unsplash2, get2, hex) == None
  {
  }
}
