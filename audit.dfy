/**
 * notify (api/index.js): the audit copy of each answered request, sent to
 * the operator's chat. The requestor's details become an HTML block, the
 * serialised result decides between an inline message and a text file, and
 * whatever the bot API answers, notify returns normally.
 */
module Audit {
  import opened Wrappers
  import opened Strings
  import opened Dict

  /** Results of this many characters or more go out as a file. */
  const InlineLimit := 4096

  /** One requestor field as an HTML line: the key upper-cased in bold, the value as code. */
  function Line(key: string, val: string): string
  {
    "<b>" + ToUpper(key) + ":</b> <code>" + val + "</code>\n"
  }

  /** The same field once the tags are gone. */
  function PlainLine(key: string, val: string): string
  {
    ToUpper(key) + ": " + val + "\n"
  }

  /** The HTML user block: one line per entry, in entry order. */
  function UserBlock(u: Dict<string>): string
  {
    if u == [] then "" else Line(u[0].0, u[0].1) + UserBlock(u[1..])
  }

  function PlainBlock(u: Dict<string>): string
  {
    if u == [] then "" else PlainLine(u[0].0, u[0].1) + PlainBlock(u[1..])
  }

  /** Appending an entry appends its line: what the loop in notify relies on. */
  lemma {:induction false} UserBlockSnoc(u: Dict<string>, key: string, val: string)
    ensures UserBlock(u + [(key, val)]) == UserBlock(u) + Line(key, val)
  {
    if u != [] {
      assert (u + [(key, val)])[1..] == u[1..] + [(key, val)];
      UserBlockSnoc(u[1..], key, val);
    }
  }

  /** The index of the first '>'. */
  function TagEnd(s: string): (j: nat)
    requires '>' in s
    ensures j < |s| && s[j] == '>' && '>' !in s[..j]
  {
    if s[0] == '>' then 0
    else
      var j := TagEnd(s[1..]) + 1;
      assert s[..j] == [s[0]] + s[1..][..j - 1];
      j
  }

  /**
   * `s.replace(/<[^>]*>/g, "")`: scanning left to right, a '<' with a '>'
   * somewhere after it is removed together with everything up to the first
   * such '>'; a '<' with no '>' after it stays, and so does any other character.
   */
  function StripTags(s: string): (r: string)
    ensures |r| <= |s|
    ensures forall c :: c in r ==> c in s
    decreases |s|
  {
    if s == [] then []
    else if s[0] == '<' && '>' in s[1..] then
      var rest := s[1..][TagEnd(s[1..]) + 1..];
      assert forall c :: c in rest ==> c in s by {
        assert rest == s[TagEnd(s[1..]) + 2..];
      }
      StripTags(rest)
    else [s[0]] + StripTags(s[1..])
  }

  predicate NoCloseAfterOpen(r: string)
  {
    forall i, j :: 0 <= i < j < |r| && r[i] == '<' ==> r[j] != '>'
  }

  /** No complete tag survives: after stripping, no '>' follows any remaining '<'. */
  lemma {:induction false} StripTagsLeavesNoTag(s: string)
    ensures NoCloseAfterOpen(StripTags(s))
    decreases |s|
  {
    if s == [] {
    } else if s[0] == '<' && '>' in s[1..] {
      StripTagsLeavesNoTag(s[1..][TagEnd(s[1..]) + 1..]);
    } else {
      var rest := StripTags(s[1..]);
      StripTagsLeavesNoTag(s[1..]);
      var r := [s[0]] + rest;
      forall i, j | 0 <= i < j < |r| && r[i] == '<' ensures r[j] != '>' {
        if i > 0 {
          assert r[i] == rest[i - 1] && r[j] == rest[j - 1];
        } else {
          assert r[j] in rest;
        }
      }
    }
  }

  /** Text without '<' passes through unchanged. */
  lemma {:induction false} StripPlain(t: string, x: string)
    requires '<' !in t
    ensures StripTags(t + x) == t + StripTags(x)
  {
    if t == [] {
      assert t + x == x;
    } else {
      var s := t + x;
      assert s[0] == t[0] && s[1..] == t[1..] + x;
      assert StripTags(s) == [t[0]] + StripTags(t[1..] + x);
      StripPlain(t[1..], x);
      assert t == [t[0]] + t[1..];
    }
  }

  /** A tag `<w>` is removed. */
  lemma StripTag(w: string, x: string)
    requires '>' !in w
    ensures StripTags("<" + w + ">" + x) == StripTags(x)
  {
    var s := "<" + w + ">" + x;
    var tail := s[1..];
    assert tail == w + ">" + x;
    assert tail[|w|] == '>';
    assert TagEnd(tail) == |w|;
    assert tail[|w| + 1..] == x;
  }

  lemma UpperKeepsAngle(k: string)
    requires '<' !in k
    ensures '<' !in ToUpper(k)
  {
    var K := ToUpper(k);
    forall i | 0 <= i < |K| ensures K[i] != '<' {
      assert K[i] == UpperChar(k[i]);
    }
  }

  /** A line whose key and value hold no '<' strips to `KEY: value`. */
  lemma StripLine(key: string, val: string, x: string)
    requires '<' !in key && '<' !in val
    ensures StripTags(Line(key, val) + x) == PlainLine(key, val) + StripTags(x)
  {
    var K := ToUpper(key);
    UpperKeepsAngle(key);
    var a7 := "\n" + x;
    var a6 := "</code>" + a7;
    var a5 := val + a6;
    var a4 := "<code>" + a5;
    var a3 := " " + a4;
    var a2 := "</b>" + a3;
    var a1 := (K + ":") + a2;
    calc {
      StripTags(Line(key, val) + x);
    == { assert Line(key, val) + x == "<" + "b" + ">" + a1; StripTag("b", a1); }
      StripTags(a1);
    == { StripPlain(K + ":", a2); }
      (K + ":") + StripTags(a2);
    == { assert a2 == "<" + "/b" + ">" + a3; StripTag("/b", a3); }
      (K + ":") + StripTags(a3);
    == { StripPlain(" ", a4); }
      (K + ":") + (" " + StripTags(a4));
    == { assert a4 == "<" + "code" + ">" + a5; StripTag("code", a5); }
      (K + ":") + (" " + StripTags(a5));
    == { StripPlain(val, a6); }
      (K + ":") + (" " + (val + StripTags(a6)));
    == { assert a6 == "<" + "/code" + ">" + a7; StripTag("/code", a7); }
      (K + ":") + (" " + (val + StripTags(a7)));
    == { StripPlain("\n", x); }
      (K + ":") + (" " + (val + ("\n" + StripTags(x))));
    ==
      PlainLine(key, val) + StripTags(x);
    }
  }

  /** With no '<' in any key or value, the stripped block is one `KEY: value` line per entry. */
  lemma {:induction false} StripUserBlock(u: Dict<string>)
    requires forall i :: 0 <= i < |u| ==> '<' !in u[i].0 && '<' !in u[i].1
    ensures StripTags(UserBlock(u)) == PlainBlock(u)
  {
    if u != [] {
      StripLine(u[0].0, u[0].1, UserBlock(u[1..]));
      StripUserBlock(u[1..]);
    }
  }

  /** The value of an ASCII digit or letter in radix 36, as parseInt reads it. */
  function DigitValue(c: char): (r: Option<nat>)
    ensures r.Some? ==> r.value < 36
    ensures r == Some(0) <==> c == '0'
  {
    if '0' <= c <= '9' then Some(c as int - '0' as int)
    else if 'a' <= c <= 'z' then Some(c as int - 'a' as int + 10)
    else if 'A' <= c <= 'Z' then Some(c as int - 'A' as int + 10)
    else None
  }

  /** ECMAScript's ToInt32 of a non-negative integer. */
  function ToInt32(n: nat): (r: int)
    ensures -0x8000_0000 <= r < 0x8000_0000
    ensures n < 0x8000_0000 ==> r == n
  {
    var m := n % 0x1_0000_0000;
    if m < 0x8000_0000 then m else m - 0x1_0000_0000
  }

  /**
   * `parseInt(c, radix)` for a one-character string c; None stands for NaN.
   * Radix 0 means 10; any other radix outside 2..36 gives NaN; white space
   * or a lone sign leaves no digits and gives NaN too.
   */
  function ParseIntChar(c: char, radix: nat): (r: Option<nat>)
    ensures r.Some? ==> DigitValue(c) == r
    ensures radix < 0x8000_0000 ==>
      (r.Some? <==> DigitValue(c).Some? && var R := if radix == 0 then 10 else radix;
                    2 <= R <= 36 && DigitValue(c).value < R)
  {
    var R := ToInt32(radix);
    var R := if R == 0 then 10 else R;
    if R < 2 || R > 36 then None
    else match DigitValue(c)
      case Some(d) => if d < R then Some(d) else None
      case None => None
  }

  /** `filter(parseInt)` keeps the character at index i iff `parseInt(c, i)` is truthy: a number other than 0. */
  predicate KeptAt(c: char, i: nat)
  {
    match ParseIntChar(c, i)
    case Some(d) => d != 0
    case None => false
  }

  /** `s.split("").filter(parseInt).join("")`, the characters of s from index `from` on. */
  function KeptFrom(s: string, from: nat): (r: string)
    ensures |r| <= |s|
  {
    if s == [] then [] else (if KeptAt(s[0], from) then [s[0]] else []) + KeptFrom(s[1..], from + 1)
  }

  /** The whole address: every kept character comes from it, and `0` is never kept. */
  function Kept(s: string): (r: string)
    ensures |r| <= |s|
    ensures forall c :: c in r ==> c in s && c != '0'
  {
    KeptChars(s, 0);
    KeptFrom(s, 0)
  }

  /** Each character is judged by its own index: appending one keeps it iff parseInt at that index is truthy. */
  lemma {:induction false} KeptSnoc(s: string, c: char, from: nat)
    ensures KeptFrom(s + [c], from) == KeptFrom(s, from) + (if KeptAt(c, from + |s|) then [c] else [])
  {
    if s != [] {
      assert (s + [c])[1..] == s[1..] + [c];
      KeptSnoc(s[1..], c, from + 1);
    }
  }

  /** Every kept character comes from s, and '0' is never kept. */
  lemma {:induction false} KeptChars(s: string, from: nat)
    ensures forall c :: c in KeptFrom(s, from) ==> c in s && c != '0' && DigitValue(c).Some?
  {
    if s != [] {
      KeptChars(s[1..], from + 1);
    }
  }

  /** The first character is read in radix 10, the second in radix 1, which rejects every character. */
  lemma FirstTwoIndices(c: char)
    ensures KeptAt(c, 0) <==> '1' <= c <= '9'
    ensures !KeptAt(c, 1)
  {
  }

  predicate IsDecimal(c: char) { '0' <= c <= '9' }

  /**
   * The unary `+` of the kept string, then its string form. Only the kept
   * strings whose value needs no floating-point rounding or exponent are
   * given: None stands for the others.
   */
  function NumberText(t: string): Option<string>
  {
    if t == "" then Some("0")
    else if (forall i :: 0 <= i < |t| ==> IsDecimal(t[i])) && t[0] != '0' && |t| <= 15 then Some(t)
    else if t == "Infinity" then Some("Infinity")
    else if t[0] != '0' && (forall i :: 0 <= i < |t| ==> DigitValue(t[i]).Some?)
            && (exists i :: 0 <= i < |t| && !IsDecimal(t[i]) && t[i] != 'e' && t[i] != 'E')
    then Some("NaN")
    else None
  }

  /** The attachment's file name, from the requestor's address: a number's text followed by `.txt`. */
  function AttachmentName(ip: string): (r: Option<string>)
    ensures r.Some? ==> 4 <= |r.value| && r.value[|r.value| - 4..] == ".txt"
    ensures Kept(ip) == "" ==> r == Some("0.txt")
  {
    match NumberText(Kept(ip))
    case Some(n) =>
      var name := n + ".txt";
      assert name[|name| - 4..] == ".txt";
      assert Kept(ip) == "" ==> name == "0.txt";
      Some(name)
    case None => None
  }

  /**
   * Whenever the kept characters are decimal digits and at most 15 of them,
   * the name is those digits, or `0` when none is kept, followed by `.txt`.
   */
  lemma DecimalAddressName(ip: string)
    requires |Kept(ip)| <= 15
    requires forall i :: 0 <= i < |Kept(ip)| ==> IsDecimal(Kept(ip)[i])
    ensures AttachmentName(ip) == Some((if Kept(ip) == "" then "0" else Kept(ip)) + ".txt")
    ensures forall i :: 0 <= i < |Kept(ip)| ==> '1' <= Kept(ip)[i] <= '9'
  {
    var t := Kept(ip);
    forall i | 0 <= i < |t| ensures '1' <= t[i] <= '9' {
      assert t[i] in t;
    }
  }

  /** For an address of digits and dots no longer than an IPv4 one, the name is the kept digits, or 0 when none is kept. */
  lemma DottedAddressName(ip: string)
    requires |ip| <= 15
    requires forall i :: 0 <= i < |ip| ==> IsDecimal(ip[i]) || ip[i] == '.'
    ensures AttachmentName(ip) == Some((if Kept(ip) == "" then "0" else Kept(ip)) + ".txt")
  {
    var t := Kept(ip);
    KeptChars(ip, 0);
    forall i | 0 <= i < |t| ensures IsDecimal(t[i]) {
      assert t[i] in t;
    }
    DecimalAddressName(ip);
  }

  /** The later characters of the example address, from index 6 on: `1` (radix 6), `1` (radix 7), `3` (radix 8), `.`, `5` (radix 10). */
  lemma ExampleTailKept()
    ensures KeptFrom("113.5", 6) == "1135"
  {
    var t := "113.5";
    assert KeptFrom(t[4..], 10) == "5";
    assert KeptFrom(t[3..], 9) == "5";
    assert KeptFrom(t[2..], 8) == "35";
    assert KeptFrom(t[1..], 7) == "135";
  }

  /** The example address keeps 2 (radix 10), drops `0` and `3` (radices 1 and 2), and keeps the tail's digits. */
  lemma ExampleKept(ip: string)
    requires ip == "203.0.113.5"
    ensures Kept(ip) == "21135"
  {
    ExampleTailKept();
    assert ip[6..] == "113.5";
    assert KeptFrom(ip[5..], 5) == "1135";
    assert KeptFrom(ip[4..], 4) == "1135";
    assert KeptFrom(ip[3..], 3) == "1135";
    assert KeptFrom(ip[2..], 2) == "1135";
    assert KeptFrom(ip[1..], 1) == "1135";
  }

  /** A concrete address: both zeros are dropped and the name is `21135.txt`. */
  lemma ExampleAddressName(ip: string)
    requires ip == "203.0.113.5"
    ensures AttachmentName(ip) == Some("21135.txt")
  {
    ExampleKept(ip);
    var t := Kept(ip);
    assert t == "21135";
    ExampleNumber();
    assert NumberText(t) == Some(t);
    assert t + ".txt" == "21135.txt";
  }

  /** The last octets of the mapped address, from index 13 on: `1`, `1`, `3` (radices 13-15), `.`, `5` (radix 17). */
  lemma MappedLastKept(t: string)
    requires t == "113.5"
    ensures KeptFrom(t, 13) == "1135"
  {
    assert KeptFrom(t[4..], 17) == "5";
    assert KeptFrom(t[3..], 16) == "5";
    assert KeptFrom(t[2..], 15) == "35";
    assert KeptFrom(t[1..], 14) == "135";
  }

  /** The first two octets of the mapped address, from index 7 on: `2` (radix 7) and `3` (radix 9) are kept, both zeros dropped. */
  lemma MappedHeadKept(t: string)
    requires t == "203.0."
    ensures KeptFrom(t, 7) == "23"
  {
    assert KeptFrom(t[5..], 12) == "";
    assert KeptFrom(t[4..], 11) == "";
    assert KeptFrom(t[3..], 10) == "";
    assert KeptFrom(t[2..], 9) == "3";
    assert KeptFrom(t[1..], 8) == "3";
  }

  /** The `::ffff:` prefix keeps nothing: `:` is no digit and `f` (15) is at least each radix 2-5. */
  lemma MappedPrefixDropped(t: string)
    requires t == "::ffff:"
    ensures KeptFrom(t, 0) == ""
  {
    assert KeptFrom(t[6..], 6) == "";
    assert KeptFrom(t[5..], 5) == "";
    assert KeptFrom(t[4..], 4) == "";
    assert KeptFrom(t[3..], 3) == "";
    assert KeptFrom(t[2..], 2) == "";
    assert KeptFrom(t[1..], 1) == "";
  }

  /** The characters of a concatenation are judged at their own indices, so the kept parts concatenate. */
  lemma {:induction false} KeptAppend(p: string, x: string, from: nat)
    ensures KeptFrom(p + x, from) == KeptFrom(p, from) + KeptFrom(x, from + |p|)
  {
    if p == [] {
      assert p + x == x;
    } else {
      var head := if KeptAt(p[0], from) then [p[0]] else [];
      assert (p + x)[0] == p[0] && (p + x)[1..] == p[1..] + x;
      KeptAppend(p[1..], x, from + 1);
      calc {
        KeptFrom(p + x, from);
        head + KeptFrom(p[1..] + x, from + 1);
        head + (KeptFrom(p[1..], from + 1) + KeptFrom(x, from + |p|));
        (head + KeptFrom(p[1..], from + 1)) + KeptFrom(x, from + |p|);
      }
    }
  }

  /** The mapped address keeps nothing from `::ffff:`, `23` from the next two octets and `1135` from the rest. */
  lemma MappedKept(p: string, h: string, t: string)
    requires p == "::ffff:" && h == "203.0." && t == "113.5"
    ensures Kept(p + (h + t)) == "231135"
  {
    MappedPrefixDropped(p);
    MappedHeadKept(h);
    MappedLastKept(t);
    KeptAppend(h, t, 7);
    KeptAppend(p, h + t, 0);
  }

  /** An IPv4-mapped IPv6 address, as a dual-stack socket reports an IPv4 client, `::ffff:203.0.113.5`, names the file `231135.txt`. */
  lemma MappedAddressName(p: string, h: string, t: string)
    requires p == "::ffff:" && h == "203.0." && t == "113.5"
    ensures AttachmentName(p + (h + t)) == Some("231135.txt")
  {
    var ip := p + (h + t);
    MappedKept(p, h, t);
    var k := Kept(ip);
    assert forall i :: 0 <= i < |k| ==> IsDecimal(k[i]);
    DecimalAddressName(ip);
    assert k + ".txt" == "231135.txt";
  }

  /** Five decimal digits without a leading zero read back as themselves. */
  lemma ExampleNumber()
    ensures NumberText("21135") == Some("21135")
  {
    var t := "21135";
    assert forall i :: 0 <= i < |t| ==> IsDecimal(t[i]);
  }

  /** A bot API request made by notify. */
  datatype Request =
    | SendMessage(text: string)
    | SendDocument(filename: Option<string>, contentLength: nat, document: string)

  /** The loop at the head of notify: one line per requestor field, in entry order. */
  method BuildUserBlock(u: Dict<string>) returns (user: string)
    ensures user == UserBlock(u)
  {
    user := "";
    for i := 0 to |u|
      invariant user == UserBlock(u[..i])
    {
      assert u[..i + 1] == u[..i] + [u[i]];
      UserBlockSnoc(u[..i], u[i].0, u[i].1);
      user := user + Line(u[i].0, u[i].1);
    }
    assert u[..|u|] == u;
  }

  /**
   * The request notify builds: the inline message for a short result, else
   * the text file, or None when the file's name cannot be computed because
   * the requestor has no `ip` field (`undefined.split` throws).
   */
  function FirstRequest(u: Dict<string>, result: string): Option<Request>
  {
    if |result| < InlineLimit then Some(SendMessage("<pre>" + result + "</pre>\n\n" + UserBlock(u)))
    else match Get(u, "ip")
      case None => None
      case Some(ip) =>
        var document := result + "\n\n" + StripTags(UserBlock(u));
        Some(SendDocument(AttachmentName(ip), |document|, document))
  }

  /** The requests notify as written makes: the one it builds, or none; the fallback never goes out. */
  function SentAsWritten(u: Dict<string>, result: string): (sent: seq<Request>)
    ensures |sent| <= 1
  {
    if FirstRequest(u, result).Some? then [FirstRequest(u, result).value] else []
  }

  /**
   * The requests notify evidently intends: the one it builds, followed, when
   * it cannot be built or the bot API rejects it (`accepts` is false), by an
   * inline report of the caught error's text (`describe`, given the failed
   * request or None) above the user block.
   */
  function SentIntended(u: Dict<string>, result: string, accepts: Request -> bool,
                        describe: Option<Request> -> string): seq<Request>
  {
    var first := FirstRequest(u, result);
    var tried := if first.Some? then [first.value] else [];
    if first.Some? && accepts(first.value) then tried
    else tried + [SendMessage("<pre>" + describe(first) + "</pre>\n\n" + UserBlock(u))]
  }

  /**
   * notify as written: build the user block, then send the result inline
   * when short enough, else as a text file with the tags stripped from the
   * user block. Any failure ends notify quietly: the fallback message refers
   * to an undefined name and throws before it is sent.
   */
  method Notify(u: Dict<string>, result: string) returns (sent: seq<Request>)
    ensures sent == SentAsWritten(u, result)
    ensures |result| < InlineLimit ==> sent == [SendMessage("<pre>" + result + "</pre>\n\n" + UserBlock(u))]
    ensures |result| >= InlineLimit && "ip" in Keys(u) ==>
      var document := result + "\n\n" + StripTags(UserBlock(u));
      sent == [SendDocument(AttachmentName(Get(u, "ip").value), |document|, document)]
    ensures |result| >= InlineLimit && "ip" !in Keys(u) ==> sent == []
  {
    var user := BuildUserBlock(u);
    if |result| < InlineLimit {
      sent := [SendMessage("<pre>" + result + "</pre>\n\n" + user)];
    } else {
      match Get(u, "ip")
      case None =>
        // `undefined.split` throws inside the try; the fallback then throws as well
        sent := [];
      case Some(ip) =>
        var plain := StripTags(user);
        var filename := AttachmentName(ip);
        var document := result + "\n\n" + plain;
        sent := [SendDocument(filename, |document|, document)];
    }
  }

  /** notify with the fallback report it evidently intends. */
  method NotifyReporting(u: Dict<string>, result: string, accepts: Request -> bool,
                         describe: Option<Request> -> string)
    returns (sent: seq<Request>)
    ensures sent == SentIntended(u, result, accepts, describe)
    ensures 1 <= |sent| <= 2
    ensures |result| < InlineLimit ==> sent[0] == SendMessage("<pre>" + result + "</pre>\n\n" + UserBlock(u))
    ensures |result| >= InlineLimit && "ip" !in Keys(u) ==>
      sent == [SendMessage("<pre>" + describe(None) + "</pre>\n\n" + UserBlock(u))]
  {
    var user := BuildUserBlock(u);
    var first: Option<Request> := None;
    if |result| < InlineLimit {
      first := Some(SendMessage("<pre>" + result + "</pre>\n\n" + user));
    } else if "ip" in Keys(u) {
      var document := result + "\n\n" + StripTags(user);
      first := Some(SendDocument(AttachmentName(Get(u, "ip").value), |document|, document));
    }
    sent := if first.Some? then [first.value] else [];
    if first.None? || !accepts(first.value) {
      sent := sent + [SendMessage("<pre>" + describe(first) + "</pre>\n\n" + user)];
    }
  }

  /**
   * The two agree on every request the bot API accepts; on a failure the
   * intended notify adds the report that notify as written loses.
   */
  lemma FallbackLost(u: Dict<string>, result: string, accepts: Request -> bool,
                     describe: Option<Request> -> string)
    ensures var first := FirstRequest(u, result);
      first.Some? && accepts(first.value) ==> SentIntended(u, result, accepts, describe) == SentAsWritten(u, result)
    ensures var first := FirstRequest(u, result);
      first.None? || !accepts(first.value) ==>
        SentIntended(u, result, accepts, describe) ==
          SentAsWritten(u, result) + [SendMessage("<pre>" + describe(first) + "</pre>\n\n" + UserBlock(u))]
  {
  }

  /**
   * A concrete case the route meets: a short result whose inline message the
   * bot API rejects. As written only that message is attempted; as intended
   * the rejection is reported in a second message.
   */
  lemma RejectedInlineMessage(u: Dict<string>, result: string, describe: Option<Request> -> string)
    requires |result| < InlineLimit
    ensures var message := SendMessage("<pre>" + result + "</pre>\n\n" + UserBlock(u));
      SentAsWritten(u, result) == [message] &&
      SentIntended(u, result, _ => false, describe) ==
        [message, SendMessage("<pre>" + describe(Some(message)) + "</pre>\n\n" + UserBlock(u))]
  {
  }

}
