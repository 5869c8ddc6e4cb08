/** URL validation as the service performs it: the input is split into
    scheme, network location (authority), path, parameters, query and
    fragment the way Python's `urllib.parse.urlparse` does for the inputs the
    service sees. The scheme, authority and path follow roughly the generic
    syntax of RFC 3986 (section 3.1, 3.2 and 3.3); the `;parameters` of the
    last path segment come from the older RFC 1808 (section 2.1), which that
    parser still applies. A URL is valid when its scheme is `http` or
    `https` and its network location is not empty. */
module Url {
  import opened Wrappers
  import opened Text

  /** The six components `urlparse` returns. */
  datatype ParsedUrl = ParsedUrl(
    scheme: string,
    netloc: string,
    path: string,
    params: string,
    query: string,
    fragment: string)

  /** U+0000 to U+0020, stripped from the front of the input. */
  const C0_CONTROL_OR_SPACE: set<char> := set i: int | 0 <= i <= 32 :: i as char

  /** Tab, carriage return and line feed, deleted wherever they occur. */
  const UNSAFE_CHARS: set<char> := {'\t', '\r', '\n'}

  /** The characters that end the network location. */
  const NETLOC_DELIMITERS: set<char> := {'/', '?', '#'}

  /** The schemes whose last path segment may carry `;parameters`. */
  const USES_PARAMS: set<string> := {
    "", "ftp", "hdl", "prospero", "http", "imap", "https", "shttp", "rtsp",
    "rtsps", "rtspu", "sip", "sips", "mms", "sftp", "tel"}

  predicate IsAsciiLetter(c: char) { 'a' <= c <= 'z' || 'A' <= c <= 'Z' }

  /** Letters, digits, `+`, `-` and `.`: what a scheme may consist of. */
  predicate IsSchemeChar(c: char) {
    IsAsciiLetter(c) || '0' <= c <= '9' || c == '+' || c == '-' || c == '.'
  }

  /** The scheme and the rest: the text before the first `:` is taken as the
      scheme, lower-cased, only when it starts with a letter and is made of
      scheme characters; otherwise there is no scheme. */
  function SplitScheme(url: string): (parts: (string, string))
    ensures parts.0 == "" ==> parts.1 == url
    ensures parts.0 != "" ==>
      |parts.0| < |url| && url[|parts.0|] == ':' && ':' !in url[..|parts.0|] &&
      parts.0 == AsciiLower(url[..|parts.0|]) && parts.1 == url[|parts.0| + 1..]
  {
    var colon := IndexOf(url, ':');
    if colon.Some? && colon.value > 0 && IsAsciiLetter(url[0])
       && (forall j :: 0 <= j < colon.value ==> IsSchemeChar(url[j]))
    then (AsciiLower(url[..colon.value]), url[colon.value + 1..])
    else ("", url)
  }

  /** The network location and the rest, for the text after `//`: the
      location runs up to the first `/`, `?` or `#`. */
  function SplitNetloc(url: string): (parts: (string, string))
    ensures parts.0 + parts.1 == url
    ensures forall i :: 0 <= i < |parts.0| ==> parts.0[i] !in NETLOC_DELIMITERS
    ensures parts.1 == [] || parts.1[0] in NETLOC_DELIMITERS
  {
    match IndexOfAny(url, NETLOC_DELIMITERS)
    case None => (url, "")
    case Some(d) =>
      assert url == url[..d] + url[d..];
      (url[..d], url[d..])
  }

  /** The path and its parameters. With a `/` in the path, the search for
      `;` starts at the last `/` but the split is made there; without one, at
      the first `;`. */
  function SplitParams(url: string): (parts: (string, string))
    requires ';' in url
    ensures parts == (url, "") || url == parts.0 + [';'] + parts.1
    ensures parts == (url, "") ==> '/' in url
  {
    match LastIndexOf(url, '/')
    case Some(slash) =>
      (match IndexOf(url[slash..], ';')
       case None => (url, "")
       case Some(k) =>
         assert url == url[..slash + k] + [';'] + url[slash + k + 1..];
         (url[..slash + k], url[slash + k + 1..]))
    case None =>
      var i := IndexOf(url, ';').value;
      assert url == url[..i] + [';'] + url[i + 1..];
      (url[..i], url[i + 1..])
  }

  /** The input as the parser reads it: leading C0 controls and spaces
      stripped, then every tab, CR and LF deleted. */
  function Sanitize(raw: string): (url: string)
    ensures forall i :: 0 <= i < |url| ==> url[i] !in UNSAFE_CHARS && url[i] in raw
  {
    var trimmed := TrimStart(raw, C0_CONTROL_OR_SPACE);
    assert forall i :: 0 <= i < |trimmed| ==> trimmed[i] == raw[|raw| - |trimmed| + i];
    RemoveAll(trimmed, UNSAFE_CHARS)
  }

  /** The network location and the rest: present only after a leading `//`. */
  function SplitAuthority(url: string): (parts: (string, string))
    ensures forall i :: 0 <= i < |parts.0| ==> parts.0[i] !in NETLOC_DELIMITERS
    ensures |parts.1| <= |url| && parts.1 == url[|url| - |parts.1|..]
  {
    if |url| >= 2 && url[..2] == "//" then SplitNetloc(url[2..]) else ("", url)
  }

  /** Path, parameters, query and fragment of what follows the network
      location: the fragment after the first `#`, then the query after the
      first `?`, then the parameters for the schemes that use them. */
  function SplitTail(scheme: string, url: string): (parts: (string, string, string, string))
    ensures '#' !in parts.0 && '?' !in parts.0 && '#' !in parts.2
    ensures (forall i :: 0 <= i < |url| ==> url[i] != '#' && url[i] != '?' && url[i] != ';') ==>
      parts == (url, "", "", "")
  {
    var (beforeFragment, fragment) := SplitOnce(url, '#');
    var (beforeQuery, query) := SplitOnce(beforeFragment, '?');
    var (path, params) :=
      if scheme in USES_PARAMS && ';' in beforeQuery then SplitParams(beforeQuery)
      else (beforeQuery, "");
    (path, params, query, fragment)
  }

  /** Scheme, network location and the rest of `raw`, or None where the
      parser reports an error: an unmatched `[` or `]` in the network
      location. The parser makes this check before it looks at the rest. */
  function SplitPrefix(raw: string): (r: Option<(string, string, string)>)
    ensures r.Some? ==> forall i :: 0 <= i < |r.value.1| ==> r.value.1[i] !in NETLOC_DELIMITERS
    ensures r.Some? && ':' !in raw ==> r.value.0 == ""
  {
    var url := Sanitize(raw);
    var scheme := SplitScheme(url);
    var authority := SplitAuthority(scheme.1);
    if ('[' in authority.0) != (']' in authority.0) then None
    else Some((scheme.0, authority.0, authority.1))
  }

  /** The components of `raw`, or None where the parser reports an error. */
  function Parse(raw: string): (r: Option<ParsedUrl>)
    ensures r.Some? <==> SplitPrefix(raw).Some?
    ensures r.Some? ==> forall i :: 0 <= i < |r.value.netloc| ==> r.value.netloc[i] !in NETLOC_DELIMITERS
    ensures r.Some? ==> '#' !in r.value.path && '?' !in r.value.path && '#' !in r.value.query
    ensures r.Some? && ':' !in raw ==> r.value.scheme == ""
  {
    match SplitPrefix(raw)
    case None => None
    case Some((scheme, netloc, rest)) =>
      var tail := SplitTail(scheme, rest);
      Some(ParsedUrl(scheme, netloc, tail.0, tail.1, tail.2, tail.3))
  }

  /** The validation rule: an `http` or `https` scheme and a non-empty
      network location; input the parser rejects is invalid. Only the
      scheme and the network location decide, so the rule reads them from
      the prefix of the parse. */
  predicate IsValidUrl(url: string)
    ensures IsValidUrl(url) ==> ':' in url
  {
    match SplitPrefix(url)
    case None => false
    case Some((scheme, netloc, _)) => (scheme == "http" || scheme == "https") && |netloc| > 0
  }

  /** The validation rule in terms of the full parse. */
  lemma ValidityOfParse(url: string)
    ensures IsValidUrl(url) <==>
      Parse(url).Some? && (Parse(url).value.scheme == "http" || Parse(url).value.scheme == "https")
      && Parse(url).value.netloc != ""
  {
  }

  /** `scheme://netloc` followed by `path`. */
  function Compose(scheme: string, netloc: string, path: string): string {
    scheme + "://" + netloc + path
  }

  /** Components that the parser gives back unchanged: a scheme of scheme
      characters starting with a letter, a network location without
      delimiters or brackets, a path that is empty or starts with `/` and has
      no query, fragment or parameter marker, and no tab, CR or LF anywhere. */
  predicate IsPlainParts(scheme: string, netloc: string, path: string) {
    && |scheme| > 0 && IsAsciiLetter(scheme[0])
    && (forall i :: 0 <= i < |scheme| ==> IsSchemeChar(scheme[i]))
    && (forall i :: 0 <= i < |netloc| ==>
          netloc[i] !in NETLOC_DELIMITERS && netloc[i] !in UNSAFE_CHARS && netloc[i] != '[' && netloc[i] != ']')
    && (path == "" || path[0] == '/')
    && (forall i :: 0 <= i < |path| ==>
          path[i] != '?' && path[i] != '#' && path[i] != ';' && path[i] !in UNSAFE_CHARS)
  }

  /** A string without tab, CR or LF that starts with a letter is read as it is. */
  lemma SanitizeKeeps(s: string)
    requires |s| > 0 && IsAsciiLetter(s[0])
    requires forall i :: 0 <= i < |s| ==> s[i] !in UNSAFE_CHARS
    ensures Sanitize(s) == s
  {
    assert s[0] !in C0_CONTROL_OR_SPACE;
    assert TrimStart(s, C0_CONTROL_OR_SPACE) == s;
    RemoveAbsent(s, UNSAFE_CHARS);
  }

  /** A scheme made of scheme characters holds no `:`, so the first `:` of
      `scheme:rest` is the one after it. */
  lemma FirstColonAfterScheme(scheme: string, rest: string)
    requires forall i :: 0 <= i < |scheme| ==> IsSchemeChar(scheme[i])
    ensures IndexOf(scheme + [':'] + rest, ':') == Some(|scheme|)
  {
    var s := scheme + [':'] + rest;
    var n := |scheme|;
    assert s[..n] == scheme;
    forall i | 0 <= i < n ensures scheme[i] != ':' { assert IsSchemeChar(scheme[i]); }
    assert s[n] == ':';
  }

  /** The scheme of a composed URL is its first component, lower-cased. */
  lemma SchemeOfComposed(scheme: string, rest: string)
    requires |scheme| > 0 && IsAsciiLetter(scheme[0])
    requires forall i :: 0 <= i < |scheme| ==> IsSchemeChar(scheme[i])
    ensures SplitScheme(scheme + [':'] + rest) == (AsciiLower(scheme), rest)
  {
    var s := scheme + [':'] + rest;
    var n := |scheme|;
    FirstColonAfterScheme(scheme, rest);
    assert s[..n] == scheme && s[n + 1..] == rest;
    assert forall j :: 0 <= j < n ==> IsSchemeChar(s[j]);
  }

  /** After `//`, a network location without delimiters ends where the path
      begins. */
  lemma AuthorityOfComposed(netloc: string, path: string)
    requires forall i :: 0 <= i < |netloc| ==> netloc[i] !in NETLOC_DELIMITERS
    requires path == "" || path[0] == '/'
    ensures SplitAuthority("//" + netloc + path) == (netloc, path)
  {
    var url := "//" + netloc + path;
    assert url[..2] == "//" && url[2..] == netloc + path;
    var delim := IndexOfAny(netloc + path, NETLOC_DELIMITERS);
    if path == "" {
      assert netloc + path == netloc;
      assert delim == None;
    } else {
      assert (netloc + path)[|netloc|] == '/';
      assert delim == Some(|netloc|);
      assert (netloc + path)[..|netloc|] == netloc;
      assert (netloc + path)[|netloc|..] == path;
    }
  }

  /** A composed URL whose components hold no tab, CR or LF holds none. */
  lemma ComposedIsSafe(scheme: string, netloc: string, path: string)
    requires |scheme| > 0 && IsAsciiLetter(scheme[0])
    requires forall i :: 0 <= i < |scheme| ==> IsSchemeChar(scheme[i])
    requires forall i :: 0 <= i < |netloc| ==> netloc[i] !in UNSAFE_CHARS
    requires forall i :: 0 <= i < |path| ==> path[i] !in UNSAFE_CHARS
    ensures forall i :: 0 <= i < |Compose(scheme, netloc, path)| ==> Compose(scheme, netloc, path)[i] !in UNSAFE_CHARS
  {
    var s := Compose(scheme, netloc, path);
    var n := |scheme|;
    forall i | 0 <= i < |s| ensures s[i] !in UNSAFE_CHARS {
      if i < n {
        assert s[i] == scheme[i] && IsSchemeChar(scheme[i]);
      } else if i < n + 3 {
      } else if i < n + 3 + |netloc| {
        assert s[i] == netloc[i - n - 3];
      } else {
        assert s[i] == path[i - n - 3 - |netloc|];
      }
    }
  }

  /** The parser reads a composed URL without tab, CR or LF as it is. */
  lemma SanitizeComposed(scheme: string, netloc: string, path: string)
    requires |scheme| > 0 && IsAsciiLetter(scheme[0])
    requires forall i :: 0 <= i < |scheme| ==> IsSchemeChar(scheme[i])
    requires forall i :: 0 <= i < |netloc| ==> netloc[i] !in UNSAFE_CHARS
    requires forall i :: 0 <= i < |path| ==> path[i] !in UNSAFE_CHARS
    ensures Sanitize(Compose(scheme, netloc, path)) == Compose(scheme, netloc, path)
  {
    ComposedIsSafe(scheme, netloc, path);
    SanitizeKeeps(Compose(scheme, netloc, path));
  }

  /** The scheme of a composed URL is its first component; the rest starts
      with `//`. */
  lemma SchemeOfComposedUrl(scheme: string, netloc: string, path: string)
    requires IsPlainParts(scheme, netloc, path)
    ensures SplitScheme(Compose(scheme, netloc, path)) == (AsciiLower(scheme), "//" + netloc + path)
  {
    var rest := "//" + netloc + path;
    assert Compose(scheme, netloc, path) == scheme + [':'] + rest;
    SchemeOfComposed(scheme, rest);
  }

  /** A path without `#`, `?` or `;` is all path: no fragment, query or
      parameters. */
  lemma TailOfPlainPath(scheme: string, path: string)
    requires forall i :: 0 <= i < |path| ==> path[i] != '?' && path[i] != '#' && path[i] != ';'
    ensures SplitTail(scheme, path) == (path, "", "", "")
  {
  }

  /** Parsing a composed URL recovers its components, with the scheme
      lower-cased. */
  lemma ParseCompose(scheme: string, netloc: string, path: string)
    requires IsPlainParts(scheme, netloc, path)
    ensures Parse(Compose(scheme, netloc, path)) == Some(ParsedUrl(AsciiLower(scheme), netloc, path, "", "", ""))
  {
    SanitizeComposed(scheme, netloc, path);
    SchemeOfComposedUrl(scheme, netloc, path);
    AuthorityOfComposed(netloc, path);
    TailOfPlainPath(AsciiLower(scheme), path);
    assert '[' !in netloc && ']' !in netloc;
  }

  /** The one parse error the validation catches: the prefix of a composed
      URL fails to split exactly when its network location holds `[`
      without `]`, or `]` without `[`. */
  lemma BracketOfComposed(scheme: string, netloc: string, path: string)
    requires |scheme| > 0 && IsAsciiLetter(scheme[0])
    requires forall i :: 0 <= i < |scheme| ==> IsSchemeChar(scheme[i])
    requires forall i :: 0 <= i < |netloc| ==> netloc[i] !in NETLOC_DELIMITERS && netloc[i] !in UNSAFE_CHARS
    requires path == "" || path[0] == '/'
    requires forall i :: 0 <= i < |path| ==> path[i] !in UNSAFE_CHARS
    ensures SplitPrefix(Compose(scheme, netloc, path)).None? <==> (('[' in netloc) != (']' in netloc))
  {
    SanitizeComposed(scheme, netloc, path);
    assert Compose(scheme, netloc, path) == scheme + [':'] + ("//" + netloc + path);
    SchemeOfComposed(scheme, "//" + netloc + path);
    AuthorityOfComposed(netloc, path);
  }

  /** So such a URL does not parse and is invalid whatever its scheme, while
      one with both brackets or neither parses. */
  lemma UnmatchedBracketIsInvalid(scheme: string, netloc: string, path: string)
    requires |scheme| > 0 && IsAsciiLetter(scheme[0])
    requires forall i :: 0 <= i < |scheme| ==> IsSchemeChar(scheme[i])
    requires forall i :: 0 <= i < |netloc| ==> netloc[i] !in NETLOC_DELIMITERS && netloc[i] !in UNSAFE_CHARS
    requires path == "" || path[0] == '/'
    requires forall i :: 0 <= i < |path| ==> path[i] !in UNSAFE_CHARS
    ensures Parse(Compose(scheme, netloc, path)).None? <==> (('[' in netloc) != (']' in netloc))
    ensures ('[' in netloc) != (']' in netloc) ==> !IsValidUrl(Compose(scheme, netloc, path))
  {
    BracketOfComposed(scheme, netloc, path);
  }

  /** A composed URL is valid exactly when its scheme is `http` or `https`
      in any letter case and its network location is not empty. */
  lemma ComposedUrlValidity(scheme: string, netloc: string, path: string)
    requires IsPlainParts(scheme, netloc, path)
    ensures IsValidUrl(Compose(scheme, netloc, path)) <==>
      (AsciiLower(scheme) == "http" || AsciiLower(scheme) == "https") && netloc != ""
  {
    ParseCompose(scheme, netloc, path);
  }

  /** The two accepted schemes are already in lower case. */
  lemma AcceptedSchemesAreLower()
    ensures AsciiLower("http") == "http" && AsciiLower("https") == "https"
  {
    var s := "https";
    assert s[0] == 'h' && s[1] == 't' && s[2] == 't' && s[3] == 'p' && s[4] == 's';
    assert forall i :: 0 <= i < |s| ==> !IsAsciiUpper(s[i]);
    var t := "http";
    assert t[0] == 'h' && t[1] == 't' && t[2] == 't' && t[3] == 'p';
    assert forall i :: 0 <= i < |t| ==> !IsAsciiUpper(t[i]);
  }

  /** A string without `:` has no scheme, so it is never a valid URL. */
  lemma NoColonIsInvalid(raw: string)
    requires ':' !in raw
    ensures !IsValidUrl(raw)
  {
  }
}
