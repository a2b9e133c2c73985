/**
 * The two URLs the server derives from strings: getURL's base and canonical
 * forms of the request URL, and the webhook address built from WEBHOOK_SERVER.
 */
module Urls {
  import opened Strings

  /** The text getURL starts from: the scheme, the Host header and, for the canonical form, the original URL. */
  function Composed(host: string, originalUrl: string, canonical: bool): string
  {
    "https://" + host + (if canonical then originalUrl else "")
  }

  /** getURL: strip trailing slashes, then lower-case, then trim. */
  function GetUrl(host: string, originalUrl: string, canonical: bool): (r: string)
    ensures forall i :: 0 <= i < |r| ==> !IsAsciiUpper(r[i])
  {
    Trim(ToLower(StripTrailingSlashes(Composed(host, originalUrl, canonical))))
  }

  /** The base form never depends on the path. */
  lemma BaseUrlIgnoresPath(host: string, path1: string, path2: string)
    ensures GetUrl(host, path1, false) == GetUrl(host, path2, false)
  {
  }

  /** Lower-casing and trimming keep a lower-case prefix that neither starts nor ends with white space. */
  lemma NormalizeKeepsPrefix(S: string, p: string)
    requires StartsWith(S, p) && p != []
    requires forall k :: 0 <= k < |p| ==> !IsAsciiUpper(p[k])
    requires !IsSpace(p[0]) && !IsSpace(p[|p| - 1])
    ensures StartsWith(Trim(ToLower(S)), p)
  {
    var L := ToLower(S);
    var n := |p|;
    forall k | 0 <= k < n ensures L[k] == p[k] {
      assert S[k] == S[..n][k];
    }
    assert L[..n] == p;
    TrimEndKeeps(L, n);
    var T := TrimEnd(L);
    assert T[..n] == p;
    assert T[0] == p[0];
    assert TrimStart(T) == T;
  }

  /** Lower-casing and trimming keep a leading `https://`. */
  lemma NormalizeKeepsScheme(S: string)
    requires StartsWith(S, "https://")
    ensures StartsWith(Trim(ToLower(S)), "https://")
  {
    var p := "https://";
    assert forall k :: 0 <= k < |p| ==> !IsAsciiUpper(p[k]);
    NormalizeKeepsPrefix(S, p);
  }

  /** A non-slash character after the scheme survives the slash strip, and so does the scheme. */
  lemma StripKeepsScheme(rest: string, i: nat)
    requires i < |rest| && rest[i] != '/'
    ensures StartsWith(StripTrailingSlashes("https://" + rest), "https://")
  {
    var c := "https://" + rest;
    var S := StripTrailingSlashes(c);
    assert c[8 + i] == rest[i];
    assert |S| > 8 + i;
    assert S[..8] == c[..8];
  }

  /** With only slashes after the scheme, the strip eats the scheme's own slashes too. */
  lemma StripEatsScheme(rest: string)
    requires forall i :: 0 <= i < |rest| ==> rest[i] == '/'
    ensures StripTrailingSlashes("https://" + rest) == "https:"
  {
    var a, b := "https:", "//" + rest;
    forall i | 0 <= i < |b| ensures b[i] == '/' {
      if i >= 2 {
        assert b[i] == rest[i - 2];
      }
    }
    StripOnlySlashes(a, b);
    assert a + "//" == "https://";
    assert a + b == (a + "//") + rest;
  }

  /**
   * The result keeps its `https://` prefix exactly when something other
   * than slashes follows the scheme; otherwise the slash strip eats the
   * scheme's own slashes and leaves `https:`.
   */
  lemma GetUrlScheme(host: string, originalUrl: string, canonical: bool)
    ensures var rest := host + (if canonical then originalUrl else "");
      StartsWith(GetUrl(host, originalUrl, canonical), "https://")
      <==> exists i :: 0 <= i < |rest| && rest[i] != '/'
  {
    var rest := host + (if canonical then originalUrl else "");
    assert Composed(host, originalUrl, canonical) == "https://" + rest;
    if exists i :: 0 <= i < |rest| && rest[i] != '/' {
      var i :| 0 <= i < |rest| && rest[i] != '/';
      StripKeepsScheme(rest, i);
      NormalizeKeepsScheme(StripTrailingSlashes("https://" + rest));
    } else {
      StripEatsScheme(rest);
      assert |GetUrl(host, originalUrl, canonical)| <= 6;
    }
  }

  /** A text whose last character is neither white space nor '/' still ends that way once lower-cased and trimmed. */
  lemma NormalizeKeepsEnd(S: string)
    requires S != [] && !IsSpace(S[|S| - 1]) && S[|S| - 1] != '/'
    ensures var r := Trim(ToLower(S)); r != [] && r[|r| - 1] != '/'
  {
    var L := ToLower(S);
    assert L[|L| - 1] == LowerChar(S[|S| - 1]);
    assert TrimEnd(L) == L;
    TrimStartKeepsLast(L);
  }

  /** Lower-casing and trimming a text that does not end in '/' can leave a '/' at the end only by trimming white space. */
  lemma NormalizedEnd(S: string)
    requires S == [] || S[|S| - 1] != '/'
    requires var r := Trim(ToLower(S)); r != [] && r[|r| - 1] == '/'
    ensures S != [] && IsSpace(S[|S| - 1])
  {
    if S == [] || !IsSpace(S[|S| - 1]) {
      if S != [] {
        NormalizeKeepsEnd(S);
      }
      assert false;
    }
  }

  /**
   * The result ends in '/' only when the slash-stripped text ended in white
   * space, which trim then removed to expose a slash.
   */
  lemma GetUrlTrailingSlash(host: string, originalUrl: string, canonical: bool)
    requires var r := GetUrl(host, originalUrl, canonical); r != [] && r[|r| - 1] == '/'
    ensures var S := StripTrailingSlashes(Composed(host, originalUrl, canonical));
      S != [] && IsSpace(S[|S| - 1])
  {
    var S := StripTrailingSlashes(Composed(host, originalUrl, canonical));
    assert GetUrl(host, originalUrl, canonical) == Trim(ToLower(S));
    NormalizedEnd(S);
  }

  /** WEBHOOK_URL: WEBHOOK_SERVER without its trailing slashes, then `/webhook/` and the bot token. */
  function WebhookUrl(server: string, token: string): (r: string)
    ensures StartsWith(r, StripTrailingSlashes(server))
    ensures var base := StripTrailingSlashes(server); base == [] || base[|base| - 1] != '/'
  {
    StripTrailingSlashes(server) + "/webhook/" + token
  }

  lemma {:induction false} StripAbsorbsSlashes(s: string, n: nat)
    ensures StripTrailingSlashes(s + seq(n, _ => '/')) == StripTrailingSlashes(s)
  {
    if n > 0 {
      var t := s + seq(n, _ => '/');
      assert t[..|t| - 1] == s + seq(n - 1, _ => '/');
      StripAbsorbsSlashes(s, n - 1);
    } else {
      assert s + seq(0, _ => '/') == s;
    }
  }

  /** However many slashes end WEBHOOK_SERVER, exactly one separates it from `webhook`. */
  lemma WebhookIgnoresTrailingSlashes(server: string, n: nat, token: string)
    ensures WebhookUrl(server + seq(n, _ => '/'), token) == WebhookUrl(server, token)
  {
    StripAbsorbsSlashes(server, n);
  }
}
