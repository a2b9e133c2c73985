/**
 * The `GET /api/:api` route (api/index.js): the user-agent and address
 * blacklists, then NotAPI through the queue, then notify and the JSON
 * answer, or a redirect home when nothing matched.
 */
module Gate {
  import opened Wrappers
  import opened Strings
  import opened Dict
  import opened Features
  import opened Audit

  /** The two blacklists, each `Blacklist.Parse` of its environment variable, read once at start-up. */
  datatype Config = Config(ips: seq<string>, uas: seq<string>)

  /** `uas.some((x) => source.toLowerCase().includes(x))`. */
  predicate UaBlocked(uas: seq<string>, source: string): (b: bool)
    ensures b ==> exists t :: t in uas && Contains(ToLower(source), t)
  {
    uas != [] && (Contains(ToLower(source), uas[0]) || (assert forall t :: t in uas[1..] ==> t in uas; UaBlocked(uas[1..], source)))
  }

  /** The user agent is blocked iff some token occurs in its lower-cased source. */
  lemma {:induction false} UaBlockedIff(uas: seq<string>, source: string)
    ensures UaBlocked(uas, source) <==> exists t :: t in uas && Contains(ToLower(source), t)
  {
    var lower := ToLower(source);
    if uas != [] {
      UaBlockedIff(uas[1..], source);
      if UaBlocked(uas, source) && !Contains(lower, uas[0]) {
        var t :| t in uas[1..] && Contains(lower, t);
        assert t in uas;
      }
      if exists t :: t in uas && Contains(lower, t) {
        var t :| t in uas && Contains(lower, t);
        assert t == uas[0] || t in uas[1..];
      }
    }
  }

  /** Tokens are not lower-cased, so one holding an upper-case ASCII letter never matches. */
  lemma UpperTokenNeverMatches(t: string, source: string, i: nat)
    requires i < |t| && IsAsciiUpper(t[i])
    ensures !Contains(ToLower(source), t)
  {
    if Contains(ToLower(source), t) {
      ContainedCharsOccur(ToLower(source), t, t[i]);
      assert false;
    }
  }

  /** What the route answers. */
  datatype Response =
    | Forbidden(body: string)  // 403
    | Next                     // handed on to the catch-all 404 page
    | Json(data: Dict<string>) // 200
    | RedirectHome             // redirect to "/"

  /**
   * The route. `source` and `ip` are the requestor's user agent and
   * address, `u` the requestor fields notify reports, and `serialize` stands
   * for JSON.stringify with two-space indentation. The audit copy goes
   * through notify as written, so at most one request is made.
   */
  method HandleApi(cfg: Config, source: string, ip: string, u: Dict<string>,
                   api: string, query: Query, p: Providers, serialize: Dict<string> -> string)
    returns (resp: Response, sent: seq<Request>)
    ensures |sent| <= 1
    ensures UaBlocked(cfg.uas, source) ==> resp == Forbidden("Bot not allowed.") && sent == []
    ensures !UaBlocked(cfg.uas, source) && ip in cfg.ips ==> resp == Next && sent == []
    ensures !UaBlocked(cfg.uas, source) && ip !in cfg.ips && !Recognized(api, query) ==>
      resp == RedirectHome && sent == []
    ensures !UaBlocked(cfg.uas, source) && ip !in cfg.ips && Recognized(api, query) ==>
      resp == Json(Fields(api, query, p)) && sent == SentAsWritten(u, serialize(resp.data))
    ensures resp.Json? && |serialize(resp.data)| < InlineLimit ==>
      sent == [SendMessage("<pre>" + serialize(resp.data) + "</pre>\n\n" + UserBlock(u))]
  {
    if UaBlocked(cfg.uas, source) {
      return Forbidden("Bot not allowed."), [];
    }
    if ip in cfg.ips {
      return Next, [];
    }
    var r := NotApi(api, query, p);
    if r.isApi {
      sent := Notify(u, serialize(r.data));
      resp := Json(r.data);
    } else {
      resp, sent := RedirectHome, [];
    }
  }
}
