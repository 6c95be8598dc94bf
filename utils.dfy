/**
 * The string helpers of the server: URL validation over an abstract parser,
 * the short-code generator as an injected source, and URL sanitising.
 */
module Utils {
  import opened Wrappers

  /** Length of a string as JavaScript's `.length` counts it: UTF-16 code units,
      so a character outside the Basic Multilingual Plane counts twice. */
  function Utf16Length(s: string): (n: nat)
    ensures |s| <= n <= 2 * |s|
  {
    if s == [] then 0
    else (if s[0] as int < 0x1_0000 then 1 else 2) + Utf16Length(s[1..])
  }

  /** For text in the Basic Multilingual Plane, such as any ASCII code, JavaScript's length is
      the number of characters. */
  lemma {:induction false} Utf16LengthOfBmp(s: string)
    requires forall i :: 0 <= i < |s| ==> s[i] as int < 0x1_0000
    ensures Utf16Length(s) == |s|
  {
    if s != [] {
      assert forall i :: 0 <= i < |s| - 1 ==> s[1..][i] == s[i + 1];
      Utf16LengthOfBmp(s[1..]);
    }
  }

  lemma {:induction false} Utf16LengthConcat(a: string, b: string)
    ensures Utf16Length(a + b) == Utf16Length(a) + Utf16Length(b)
  {
    if a == [] {
      assert a + b == b;
    } else {
      assert (a + b)[1..] == a[1..] + b;
      Utf16LengthConcat(a[1..], b);
    }
  }

  /** The length of every short code, in JavaScript's units. */
  const CodeLength := 6

  /** What the generator is known to produce: a string of length 6. */
  type ShortCode = s: string | Utf16Length(s) == CodeLength witness "aaaaaa"

  /** The random generator, made a parameter: the candidate drawn on the given attempt. */
  type CodeSource = nat -> ShortCode

  /** `generateShortCode`: one draw from the injected source; its only promise is the length. */
  function GenerateShortCode(source: CodeSource, attempt: nat): (code: string)
    ensures Utf16Length(code) == CodeLength
  {
    source(attempt)
  }

  /** The URL parser, made a parameter: the `protocol` of the parsed URL, or None when
      parsing throws. */
  type UrlParser = string -> Option<string>

  /** `validateUrl`: accepted exactly when the parser succeeds with protocol `http:` or `https:`. */
  function ValidateUrl(parse: UrlParser, url: string): (ok: bool)
    ensures parse(url).None? ==> !ok
    ensures ok <==> parse(url) == Some("http:") || parse(url) == Some("https:")
  {
    match parse(url)
    case None => false
    case Some(protocol) => protocol == "http:" || protocol == "https:"
  }

  /** ASCII lower-casing: the only case folding a JavaScript `/i` regular expression without the
      `u` flag applies to the letters of `https`. */
  function LowerAscii(c: char): char
  {
    if 'A' <= c <= 'Z' then (c as int + 32) as char else c
  }

  /** Does `s` begin with the pattern `p`, ignoring ASCII case? */
  function StartsWithIgnoringCase(s: string, p: string): (b: bool)
    ensures b <==> |p| <= |s| && forall i :: 0 <= i < |p| ==> LowerAscii(s[i]) == LowerAscii(p[i])
  {
    if p == [] then true
    else |s| > 0 && LowerAscii(s[0]) == LowerAscii(p[0]) && StartsWithIgnoringCase(s[1..], p[1..])
  }

  /** The test `/^https?:\/\//i`: `http` or `https`, then `://`, in any case. */
  predicate HasHttpScheme(s: string)
    ensures HasHttpScheme(s) ==> |s| >= 7
  {
    StartsWithIgnoringCase(s, "http://") || StartsWithIgnoringCase(s, "https://")
  }

  /** Case folding lets a character that is not a letter match only itself. */
  lemma LowerAsciiMatchesOnlyItself(c: char, d: char)
    requires !('a' <= d <= 'z') && !('A' <= d <= 'Z')
    ensures LowerAscii(c) == d <==> c == d
  {
    if 'A' <= c <= 'Z' {
      assert 'a' <= LowerAscii(c) <= 'z';
    }
  }

  /** Case-insensitive `http://` prefix, character by character. */
  lemma StartsWithHttp(s: string)
    requires |s| >= 7
    ensures StartsWithIgnoringCase(s, "http://") <==>
      LowerAscii(s[0]) == 'h' && LowerAscii(s[1]) == 't' && LowerAscii(s[2]) == 't'
      && LowerAscii(s[3]) == 'p' && s[4] == ':' && s[5] == '/' && s[6] == '/'
  {
    var p := "http://";
    LowerAsciiMatchesOnlyItself(s[4], ':');
    LowerAsciiMatchesOnlyItself(s[5], '/');
    LowerAsciiMatchesOnlyItself(s[6], '/');
    assert p[0] == 'h' && p[1] == 't' && p[2] == 't' && p[3] == 'p';
    assert p[4] == ':' && p[5] == '/' && p[6] == '/';
  }

  /** Case-insensitive `https://` prefix, character by character. */
  lemma StartsWithHttps(s: string)
    requires |s| >= 8
    ensures StartsWithIgnoringCase(s, "https://") <==>
      LowerAscii(s[0]) == 'h' && LowerAscii(s[1]) == 't' && LowerAscii(s[2]) == 't'
      && LowerAscii(s[3]) == 'p' && LowerAscii(s[4]) == 's'
      && s[5] == ':' && s[6] == '/' && s[7] == '/'
  {
    var p := "https://";
    LowerAsciiMatchesOnlyItself(s[5], ':');
    LowerAsciiMatchesOnlyItself(s[6], '/');
    LowerAsciiMatchesOnlyItself(s[7], '/');
    assert p[0] == 'h' && p[1] == 't' && p[2] == 't' && p[3] == 'p' && p[4] == 's';
    assert p[5] == ':' && p[6] == '/' && p[7] == '/';
  }

  /** `HasHttpScheme` read character by character, as the regular expression is: `h`, `t`, `t`,
      `p` in any case, an optional `s` in any case, then exactly `://`. */
  lemma HasHttpSchemeSpelledOut(s: string)
    ensures HasHttpScheme(s) <==>
      |s| >= 7 && LowerAscii(s[0]) == 'h' && LowerAscii(s[1]) == 't' && LowerAscii(s[2]) == 't'
      && LowerAscii(s[3]) == 'p'
      && ((s[4] == ':' && s[5] == '/' && s[6] == '/')
          || (|s| >= 8 && LowerAscii(s[4]) == 's' && s[5] == ':' && s[6] == '/' && s[7] == '/'))
  {
    if |s| >= 8 {
      StartsWithHttp(s);
      StartsWithHttps(s);
    } else if |s| == 7 {
      StartsWithHttp(s);
    }
  }

  /** `sanitizeUrl`: prefixes `https://` unless the URL already names an http(s) scheme. */
  function SanitizeUrl(url: string): (r: string)
    ensures HasHttpScheme(r)
    ensures HasHttpScheme(url) ==> r == url
    ensures !HasHttpScheme(url) ==> r == "https://" + url
    ensures |url| <= |r| && r[|r| - |url|..] == url
  {
    if HasHttpScheme(url) then url else "https://" + url
  }

  /** Sanitising twice is sanitising once. */
  lemma SanitizeUrlIdempotent(url: string)
    ensures SanitizeUrl(SanitizeUrl(url)) == SanitizeUrl(url)
  {
  }
}
