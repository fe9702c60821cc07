/**
 * The JavaScript string operations the bot relies on, over `seq<char>`:
 * `trim`, `split` with a character class, `split(/\s+/)`, `join`, ASCII `toLowerCase`,
 * `startsWith` and `replace` with a string pattern (first occurrence, with `$` patterns
 * in the replacement).
 */
module JsStrings {
  import opened Options

  /** `\s` of an ECMAScript regular expression, which is also what `trim` removes:
      WhiteSpace (TAB, VT, FF, SP, NBSP, ZWNBSP and the Zs separators) and
      LineTerminator (LF, CR, LS, PS). */
  predicate IsSpace(c: char) {
    var n := c as int;
    n == 0x09 || n == 0x0A || n == 0x0B || n == 0x0C || n == 0x0D || n == 0x20 || n == 0xA0
    || n == 0x1680 || (0x2000 <= n <= 0x200A) || n == 0x2028 || n == 0x2029
    || n == 0x202F || n == 0x205F || n == 0x3000 || n == 0xFEFF
  }

  /** The characters `.` does not match in a regular expression without the `s` flag. */
  predicate IsLineTerminator(c: char) {
    var n := c as int;
    n == 0x0A || n == 0x0D || n == 0x2028 || n == 0x2029
  }

  /** The class `[a-fA-F0-9]`. */
  predicate IsHexDigit(c: char) {
    ('0' <= c <= '9') || ('a' <= c <= 'f') || ('A' <= c <= 'F')
  }

  predicate StartsWith(s: string, prefix: string) {
    |prefix| <= |s| && s[..|prefix|] == prefix
  }

  predicate AllSpace(s: string) {
    forall k :: 0 <= k < |s| ==> IsSpace(s[k])
  }

  predicate NoSpace(s: string) {
    forall k :: 0 <= k < |s| ==> !IsSpace(s[k])
  }

  /** No character of `s` is one of `seps`. */
  predicate Free(s: string, seps: set<char>) {
    forall k :: 0 <= k < |s| ==> s[k] !in seps
  }

  /** How many characters of `s` are in `seps`. */
  function CountIn(s: string, seps: set<char>): nat {
    if s == [] then 0 else (if s[0] in seps then 1 else 0) + CountIn(s[1..], seps)
  }

  // ---------------------------------------------------------------------------------------
  // split on single characters: `s.split(' ')`, `s.split(/\n|\t/)`

  /** `s.split(sep)` where each character of `seps` is a separator of its own: the pieces
      between consecutive separators, empty pieces included. */
  function SplitBy(s: string, seps: set<char>): (pieces: seq<string>)
    ensures |pieces| >= 1
  {
    if s == [] then [""]
    else
      var rest := SplitBy(s[1..], seps);
      if s[0] in seps then [""] + rest else [[s[0]] + rest[0]] + rest[1..]
  }

  /** `parts.join(sep)`. */
  function Join(parts: seq<string>, sep: string): string {
    if |parts| == 0 then ""
    else if |parts| == 1 then parts[0]
    else parts[0] + sep + Join(parts[1..], sep)
  }

  /** There is one piece more than there are separators. */
  lemma {:induction false} SplitCount(s: string, seps: set<char>)
    ensures |SplitBy(s, seps)| == CountIn(s, seps) + 1
  {
    if s != [] {
      SplitCount(s[1..], seps);
    }
  }

  lemma JoinConsHead(c: char, parts: seq<string>, sep: string)
    requires |parts| >= 1
    ensures Join([[c] + parts[0]] + parts[1..], sep) == [c] + Join(parts, sep)
  {
    var p := [[c] + parts[0]] + parts[1..];
    if |parts| > 1 {
      assert p[1..] == parts[1..];
    }
  }

  /** Splitting on one character and joining with it gives the string back. */
  lemma {:induction false} SplitJoin(s: string, c: char)
    ensures Join(SplitBy(s, {c}), [c]) == s
  {
    if s != [] {
      var rest := SplitBy(s[1..], {c});
      SplitJoin(s[1..], c);
      if s[0] == c {
        assert SplitBy(s, {c}) == [""] + rest;
        assert ([""] + rest)[1..] == rest;
      } else {
        JoinConsHead(s[0], rest, [c]);
      }
    }
  }

  /** A prefix free of the separator, followed by a separator, is a piece of its own. */
  lemma {:induction false} SplitAfterPrefix(p: string, c: char, q: string)
    requires Free(p, {c})
    ensures SplitBy(p + [c] + q, {c}) == [p] + SplitBy(q, {c})
  {
    var s := p + [c] + q;
    if p == [] {
      assert s[1..] == q;
    } else {
      assert s[1..] == p[1..] + [c] + q;
      assert Free(p[1..], {c}) by {
        forall k | 0 <= k < |p[1..]| ensures p[1..][k] != c { assert p[1..][k] == p[k + 1]; }
      }
      SplitAfterPrefix(p[1..], c, q);
      assert [p[0]] + p[1..] == p;
    }
  }

  /** A prefix free of separators is the start of the first piece. */
  lemma {:induction false} SplitFirstPiece(p: string, r: string, seps: set<char>)
    requires Free(p, seps)
    ensures SplitBy(p + r, seps)[0] == p + SplitBy(r, seps)[0]
  {
    if p == [] {
      assert p + r == r;
    } else {
      var s := p + r;
      assert s[1..] == p[1..] + r;
      assert Free(p[1..], seps) by {
        forall k | 0 <= k < |p[1..]| ensures p[1..][k] !in seps { assert p[1..][k] == p[k + 1]; }
      }
      SplitFirstPiece(p[1..], r, seps);
      assert s[0] == p[0] && p[0] !in seps;
      calc {
        SplitBy(s, seps)[0];
        [s[0]] + SplitBy(s[1..], seps)[0];
        [p[0]] + (p[1..] + SplitBy(r, seps)[0]);
        { assert [p[0]] + p[1..] == p; }
        p + SplitBy(r, seps)[0];
      }
    }
  }

  // ---------------------------------------------------------------------------------------
  // trim

  /** `s.trimStart()`. */
  function TrimStart(s: string): (r: string)
    ensures |r| <= |s|
    ensures AllSpace(s[..|s| - |r|])
    ensures r == [] || !IsSpace(r[0])
  {
    if s != [] && IsSpace(s[0]) then TrimStart(s[1..]) else s
  }

  /** What `trimStart` keeps is a suffix of its input. */
  lemma {:induction false} TrimStartSuffix(s: string)
    ensures TrimStart(s) == s[|s| - |TrimStart(s)|..]
    decreases |s|
  {
    if s != [] && IsSpace(s[0]) {
      TrimStartSuffix(s[1..]);
      assert s[1..][|s| - 1 - |TrimStart(s)|..] == s[|s| - |TrimStart(s)|..];
    }
  }

  /** `s.trimEnd()`. */
  function TrimEnd(s: string): (r: string)
    ensures |r| <= |s| && r == s[..|r|]
    ensures AllSpace(s[|r|..])
    ensures r == [] || !IsSpace(r[|r| - 1])
  {
    if s != [] && IsSpace(s[|s| - 1]) then TrimEnd(s[..|s| - 1]) else s
  }

  /** `s.trim()`: `s` without its leading and trailing whitespace. */
  function Trim(s: string): (r: string)
    ensures r == [] || (!IsSpace(r[0]) && !IsSpace(r[|r| - 1]))
  {
    var t := TrimStart(s);
    var r := TrimEnd(t);
    assert r != [] ==> r[0] == t[0];
    r
  }

  /** A string without whitespace at either end is its own trim. */
  lemma TrimOfTrimmed(s: string)
    requires s == [] || (!IsSpace(s[0]) && !IsSpace(s[|s| - 1]))
    ensures Trim(s) == s
  {
  }

  // ---------------------------------------------------------------------------------------
  // split on runs of whitespace: `s.split(/\s+/)`

  /** `s.split(/\s+/)`: the pieces between maximal runs of whitespace; a leading or trailing
      run yields an empty first or last piece, and the empty string yields `[""]`. */
  function Fields(s: string): (fields: seq<string>)
    ensures |fields| >= 1
    decreases |s|
  {
    if s == [] then [""]
    else if IsSpace(s[0]) then [""] + Fields(TrimStart(s[1..]))
    else
      var rest := Fields(s[1..]);
      [[s[0]] + rest[0]] + rest[1..]
  }

  /** The longest prefix of `s` without whitespace. */
  function LeadingWord(s: string): (w: string)
    ensures |w| <= |s| && w == s[..|w|] && NoSpace(w)
    ensures |w| == |s| || IsSpace(s[|w|])
  {
    if s == [] || IsSpace(s[0]) then [] else [s[0]] + LeadingWord(s[1..])
  }

  /** The words of `s`: its maximal non-empty runs of non-whitespace characters, in order.
      This is the reference against which `Fields` is proved. */
  function Words(s: string): seq<string>
    decreases |s|
  {
    var t := TrimStart(s);
    if t == [] then []
    else
      var w := LeadingWord(t);
      [w] + Words(t[|w|..])
  }

  /** Every word is non-empty and free of whitespace. */
  predicate WordList(ws: seq<string>) {
    forall i :: 0 <= i < |ws| ==> ws[i] != [] && NoSpace(ws[i])
  }

  lemma {:induction false} WordsShape(s: string)
    ensures WordList(Words(s))
    decreases |s|
  {
    var t := TrimStart(s);
    if t != [] {
      var w := LeadingWord(t);
      assert w != [] by {
        assert !IsSpace(t[0]);
      }
      var rest := Words(t[|w|..]);
      WordsShape(t[|w|..]);
      assert Words(s) == [w] + rest;
      assert WordList([w] + rest) by {
        var ws := [w] + rest;
        forall i | 0 <= i < |ws| ensures ws[i] != [] && NoSpace(ws[i]) {
          if i > 0 {
            assert ws[i] == rest[i - 1];
          }
        }
      }
    }
  }

  lemma {:induction false} FieldsAfterWord(w: string, r: string)
    requires NoSpace(w)
    requires r == [] || IsSpace(r[0])
    ensures Fields(w + r) == if r == [] then [w] else [w] + Fields(TrimStart(r[1..]))
  {
    if w == [] {
      assert w + r == r;
    } else {
      assert (w + r)[1..] == w[1..] + r;
      FieldsAfterWord(w[1..], r);
      assert [w[0]] + w[1..] == w;
    }
  }

  /** What follows the first word of a string without whitespace at either end, once trimmed,
      is again such a string, strictly shorter, with the same words. */
  lemma AfterFirstWord(t: string, w: string, r: string)
    requires t != [] && !IsSpace(t[0]) && !IsSpace(t[|t| - 1])
    requires w == LeadingWord(t) && r == t[|w|..] && r != []
    ensures var t' := TrimStart(r[1..]);
      t' != [] && !IsSpace(t'[0]) && !IsSpace(t'[|t'| - 1]) && |t'| < |t| && Words(r) == Words(t')
  {
    var u := r[1..];
    var t' := TrimStart(u);
    assert r[|r| - 1] == t[|t| - 1];
    assert IsSpace(r[0]);
    assert |r| >= 2;
    assert !IsSpace(u[|u| - 1]);
    assert t' != [];
    TrimStartSuffix(u);
    assert t'[|t'| - 1] == u[|u| - 1];
    assert TrimStart(r) == t';
    assert TrimStart(t') == t';
  }

  /** On a string without whitespace at either end, `split(/\s+/)` gives exactly its words. */
  lemma {:induction false} FieldsOfTrimmed(t: string)
    requires t != [] && !IsSpace(t[0]) && !IsSpace(t[|t| - 1])
    ensures Fields(t) == Words(t)
    decreases |t|
  {
    var w := LeadingWord(t);
    var r := t[|w|..];
    assert t == w + r;
    FieldsAfterWord(w, r);
    assert TrimStart(t) == t;
    assert Words(t) == [w] + Words(r);
    if r != [] {
      AfterFirstWord(t, w, r);
      FieldsOfTrimmed(TrimStart(r[1..]));
    }
  }

  lemma {:induction false} JoinOfWords(ws: seq<string>, sep: string)
    requires WordList(ws)
    ensures var j := Join(ws, sep); (|ws| >= 1 ==> j != []) && (j == [] || (!IsSpace(j[0]) && !IsSpace(j[|j| - 1])))
  {
    if |ws| > 1 {
      JoinOfWords(ws[1..], sep);
    }
  }

  /** Words joined by single spaces have no whitespace at either end. */
  lemma JoinOfWordsTrimmed(ws: seq<string>)
    requires WordList(ws)
    ensures Trim(Join(ws, " ")) == Join(ws, " ")
  {
    JoinOfWords(ws, " ");
    TrimOfTrimmed(Join(ws, " "));
  }

  // ---------------------------------------------------------------------------------------
  // toLowerCase, ASCII only

  function LowerChar(c: char): char {
    if 'A' <= c <= 'Z' then (c as int + 32) as char else c
  }

  /** `s.toLowerCase()` restricted to ASCII letters. */
  function ToLower(s: string): (r: string)
    ensures |r| == |s|
    ensures forall k :: 0 <= k < |s| ==> r[k] == LowerChar(s[k])
  {
    seq(|s|, k requires 0 <= k < |s| => LowerChar(s[k]))
  }

  /** Lowercasing leaves no upper-case letter, is idempotent and keeps a `0x` prefix. */
  lemma LowerProperties(s: string)
    ensures forall k :: 0 <= k < |s| ==> !('A' <= ToLower(s)[k] <= 'Z')
    ensures ToLower(ToLower(s)) == ToLower(s)
    ensures StartsWith(s, "0x") ==> StartsWith(ToLower(s), "0x")
  {
    var r := ToLower(s);
    if StartsWith(s, "0x") {
      assert r[0] == '0' && r[1] == 'x' by { assert s[0] == s[..2][0] && s[1] == s[..2][1]; }
      assert r[..2] == "0x";
    }
  }

  // ---------------------------------------------------------------------------------------
  // replace: `s.replace(pattern, replacement)` with a string pattern

  predicate OccursAt(s: string, pat: string, i: nat) {
    i + |pat| <= |s| && s[i..i + |pat|] == pat
  }

  /** `s.indexOf(pat, i)`: the first occurrence of `pat` at or after `i`. */
  function IndexFrom(s: string, pat: string, i: nat): (r: Option<nat>)
    ensures r.Some? ==> i <= r.value && OccursAt(s, pat, r.value)
    ensures r.Some? ==> forall j :: i <= j < r.value ==> !OccursAt(s, pat, j)
    ensures r.None? ==> forall j :: i <= j ==> !OccursAt(s, pat, j)
    decreases |s| - i
  {
    if i + |pat| > |s| then None
    else if OccursAt(s, pat, i) then Some(i)
    else IndexFrom(s, pat, i + 1)
  }

  /** The replacement text of `String.prototype.replace` with a string pattern: `$$` is `$`,
      `$&` the matched text, `` $` `` the text before it, `$'` the text after it; every other
      `$` is literal (a string pattern has no capture groups). */
  function Substitute(rep: string, matched: string, before: string, after: string): string
    decreases |rep|
  {
    if rep == [] then []
    else if |rep| >= 2 && rep[0] == '$' && rep[1] == '$' then "$" + Substitute(rep[2..], matched, before, after)
    else if |rep| >= 2 && rep[0] == '$' && rep[1] == '&' then matched + Substitute(rep[2..], matched, before, after)
    else if |rep| >= 2 && rep[0] == '$' && rep[1] == '`' then before + Substitute(rep[2..], matched, before, after)
    else if |rep| >= 2 && rep[0] == '$' && rep[1] == '\'' then after + Substitute(rep[2..], matched, before, after)
    else [rep[0]] + Substitute(rep[1..], matched, before, after)
  }

  /** `s.replace(pat, rep)`: only the first occurrence of `pat` is replaced. */
  function ReplaceFirst(s: string, pat: string, rep: string): string {
    match IndexFrom(s, pat, 0)
    case None => s
    case Some(i) => s[..i] + Substitute(rep, pat, s[..i], s[i + |pat|..]) + s[i + |pat|..]
  }

  /** A replacement without `$` is inserted literally. */
  lemma {:induction false} SubstituteLiteral(rep: string, matched: string, before: string, after: string)
    requires '$' !in rep
    ensures Substitute(rep, matched, before, after) == rep
  {
    if rep != [] {
      assert rep[0] != '$';
      SubstituteLiteral(rep[1..], matched, before, after);
      assert [rep[0]] + rep[1..] == rep;
    }
  }

  /** A template `pre + "{}" + post` whose `pre` holds no `{}` has its placeholder replaced by
      a `$`-free address, and nothing else changes. */
  lemma ReplacePlaceholder(pre: string, post: string, rep: string)
    requires forall j :: !OccursAt(pre, "{}", j)
    requires '$' !in rep
    ensures ReplaceFirst(pre + "{}" + post, "{}", rep) == pre + rep + post
  {
    var s := pre + "{}" + post;
    assert OccursAt(s, "{}", |pre|) by { assert s[|pre|..|pre| + 2] == "{}"; }
    forall j: nat | j < |pre| ensures !OccursAt(s, "{}", j) {
      if j + 2 <= |pre| {
        assert s[j..j + 2] == pre[j..j + 2];
        assert !OccursAt(pre, "{}", j);
      } else {
        assert s[j + 1] == '{';
        assert s[j..j + 2][1] == s[j + 1];
      }
    }
    var r := IndexFrom(s, "{}", 0);
    assert r == Some(|pre|);
    assert s[..|pre|] == pre;
    assert s[|pre| + 2..] == post;
    SubstituteLiteral(rep, "{}", pre, post);
  }

  /** Concatenation regroups. */
  lemma ConcatAssoc<X>(a: seq<X>, b: seq<X>, c: seq<X>)
    ensures a + b + c == a + (b + c)
  {
  }
}
