/**
 * IP_BLACKLIST and UA_BLACKLIST: space-separated lists read once from the
 * environment, `(Boolean(X) && X.split(" ").filter(Boolean)) || []`.
 */
module Blacklist {
  import opened Wrappers

  /** `s.split(sep)` for a one-character separator: the pieces between separators, one more than there are separators. */
  function Split(s: string, sep: char): (parts: seq<string>)
    ensures |parts| >= 1
    ensures forall p :: p in parts ==> sep !in p
  {
    if s == [] then [""]
    else
      var rest := Split(s[1..], sep);
      if s[0] == sep then [""] + rest else [[s[0]] + rest[0]] + rest[1..]
  }

  /** `parts.join(sep)`. */
  function Join(parts: seq<string>, sep: char): string
  {
    if parts == [] then ""
    else if |parts| == 1 then parts[0]
    else parts[0] + [sep] + Join(parts[1..], sep)
  }

  /** Joining the pieces with the separator gives back the original text. */
  lemma {:induction false} JoinSplit(s: string, sep: char)
    ensures Join(Split(s, sep), sep) == s
  {
    if s != [] {
      var rest := Split(s[1..], sep);
      JoinSplit(s[1..], sep);
      if s[0] == sep {
        assert Split(s, sep) == [""] + rest;
        assert Join(Split(s, sep), sep) == "" + [sep] + Join(rest, sep);
      } else {
        var parts := Split(s, sep);
        assert parts == [[s[0]] + rest[0]] + rest[1..];
        if |rest| == 1 {
          assert Join(parts, sep) == [s[0]] + rest[0];
        } else {
          assert Join(parts, sep) == [s[0]] + rest[0] + [sep] + Join(rest[1..], sep);
        }
      }
    }
  }

  /** Text free of the separator, put in front, extends the first piece. */
  lemma {:induction false} SplitPrefix(p: string, x: string, sep: char)
    requires sep !in p
    ensures Split(p + x, sep) == [p + Split(x, sep)[0]] + Split(x, sep)[1..]
  {
    if p == [] {
      var X := Split(x, sep);
      assert p + x == x && p + X[0] == X[0];
      assert X == [X[0]] + X[1..];
    } else {
      var X := Split(x, sep);
      assert (p + x)[0] == p[0] && (p + x)[1..] == p[1..] + x;
      SplitPrefix(p[1..], x, sep);
      var R := Split(p[1..] + x, sep);
      assert Split(p + x, sep) == [[p[0]] + R[0]] + R[1..];
      assert [p[0]] + (p[1..] + X[0]) == p + X[0];
    }
  }

  /** Splitting a join of separator-free pieces gives the pieces back. */
  lemma {:induction false} SplitJoin(parts: seq<string>, sep: char)
    requires |parts| >= 1
    requires forall p :: p in parts ==> sep !in p
    ensures Split(Join(parts, sep), sep) == parts
  {
    if |parts| == 1 {
      SplitPrefix(parts[0], "", sep);
      assert parts[0] + "" == parts[0];
    } else {
      var rest := Join(parts[1..], sep);
      SplitJoin(parts[1..], sep);
      assert Join(parts, sep) == parts[0] + ([sep] + rest);
      SplitPrefix(parts[0], [sep] + rest, sep);
      assert ([sep] + rest)[0] == sep && ([sep] + rest)[1..] == rest;
      assert Split([sep] + rest, sep) == [""] + parts[1..];
      assert parts[0] + "" == parts[0];
      assert parts == [parts[0]] + parts[1..];
    }
  }

  /** `filter(Boolean)` on strings: drop the empty ones. */
  function NonEmpty(parts: seq<string>): (r: seq<string>)
    ensures forall t :: t in r <==> t in parts && t != ""
  {
    if parts == [] then []
    else (if parts[0] == "" then [] else [parts[0]]) + NonEmpty(parts[1..])
  }

  /** Filtering keeps every part when none is empty. */
  lemma {:induction false} NonEmptyKeepsAll(parts: seq<string>)
    requires forall t :: t in parts ==> t != ""
    ensures NonEmpty(parts) == parts
  {
    if parts != [] {
      assert forall t :: t in parts[1..] ==> t in parts;
      NonEmptyKeepsAll(parts[1..]);
      assert parts[0] in parts;
      assert parts == [parts[0]] + parts[1..];
    }
  }

  function Concat(parts: seq<string>): string
  {
    if parts == [] then "" else parts[0] + Concat(parts[1..])
  }

  function Without(s: string, c: char): (r: string)
  {
    if s == [] then "" else (if s[0] == c then "" else [s[0]]) + Without(s[1..], c)
  }

  lemma {:induction false} ConcatNonEmpty(parts: seq<string>)
    ensures Concat(NonEmpty(parts)) == Concat(parts)
  {
    if parts != [] {
      ConcatNonEmpty(parts[1..]);
      var rest := NonEmpty(parts[1..]);
      if parts[0] != "" {
        assert NonEmpty(parts) == [parts[0]] + rest;
        assert ([parts[0]] + rest)[1..] == rest;
      } else {
        assert NonEmpty(parts) == rest;
      }
    }
  }

  lemma {:induction false} ConcatSplit(s: string, sep: char)
    ensures Concat(Split(s, sep)) == Without(s, sep)
  {
    if s != [] {
      var rest := Split(s[1..], sep);
      ConcatSplit(s[1..], sep);
      if s[0] != sep {
        assert Concat(rest) == rest[0] + Concat(rest[1..]);
        assert Concat(Split(s, sep)) == ([s[0]] + rest[0]) + Concat(rest[1..]);
      }
    }
  }

  /** A blacklist: unset or empty gives no entries, otherwise the non-empty space-separated tokens in order. */
  function Parse(env: Option<string>): (r: seq<string>)
    ensures env.None? || env.value == "" ==> r == []
    ensures forall t :: t in r ==> t != "" && ' ' !in t
  {
    if env.None? || env.value == "" then [] else NonEmpty(Split(env.value, ' '))
  }

  /** The tokens are the text's characters minus its spaces, none lost, none reordered. */
  lemma ParseKeepsText(s: string)
    ensures Concat(Parse(Some(s))) == Without(s, ' ')
  {
    if s != "" {
      ConcatNonEmpty(Split(s, ' '));
      ConcatSplit(s, ' ');
    }
  }

  /** The tokens are exactly the space-separated runs, in order: joining tokens with spaces parses back to them. */
  lemma ParseJoin(toks: seq<string>)
    requires toks != []
    requires forall t :: t in toks ==> t != "" && ' ' !in t
    ensures Parse(Some(Join(toks, ' '))) == toks
  {
    var s := Join(toks, ' ');
    JoinStarts(toks, ' ');
    assert toks[0] in toks;
    assert |s| >= |toks[0]| > 0;
    SplitJoin(toks, ' ');
    NonEmptyKeepsAll(toks);
  }

  /** A join starts with its first part. */
  lemma JoinStarts(parts: seq<string>, sep: char)
    requires parts != []
    ensures |parts[0]| <= |Join(parts, sep)| && Join(parts, sep)[..|parts[0]|] == parts[0]
  {
  }
}
