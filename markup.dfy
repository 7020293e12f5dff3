/** The two regular expressions `getTranslation` applies to a context example
    (src/reverso.js): tag stripping with `/<[^>]*>/gi` and the first
    `<em>(.*?)</em>` capture. */
module Markup {
  import opened Js
  import opened Strings

  /** No `<` of `s` is followed, anywhere later, by a `>`: `s` holds no span
      the tag pattern could match. */
  predicate TagFree(s: string)
  {
    forall i, j | 0 <= i < j < |s| && s[i] == '<' :: s[j] != '>'
  }

  /** `s.replace(/<[^>]*>/gi, '')`. Scanning from the left, a `<` with a `>`
      somewhere after it starts a match that runs to the first such `>` (the
      class `[^>]` also takes line breaks) and is deleted; every other
      character is kept. */
  function StripTags(s: string): (r: string)
    ensures |r| <= |s|
    ensures forall c | c in r :: c in s
    ensures TagFree(r)
    decreases |s|
  {
    if s == [] then []
    else if s[0] == '<' && '>' in s then StripTags(s[IndexOf(s, '>') + 1..])
    else
      var rest := StripTags(s[1..]);
      assert forall c | c in rest :: c in s[1..];
      [s[0]] + rest
  }

  /** A string without tags is left as it is. */
  lemma {:induction false} StripTagsFixed(s: string)
    requires TagFree(s)
    ensures StripTags(s) == s
    decreases |s|
  {
    if s != [] {
      if s[0] == '<' {
        assert forall j | 0 < j < |s| :: s[j] != '>';
        assert '>' !in s;
      }
      assert TagFree(s[1..]) by {
        forall i, j | 0 <= i < j < |s[1..]| && s[1..][i] == '<'
          ensures s[1..][j] != '>'
        {
          assert s[i + 1] == '<';
        }
      }
      StripTagsFixed(s[1..]);
    }
  }

  /** A tag at the start is deleted up to the first `>` after its `<`. */
  lemma StripLeadingTag(t: string, q: string)
    requires '>' !in t
    ensures StripTags(['<'] + t + ['>'] + q) == StripTags(q)
  {
    var s := ['<'] + t + ['>'] + q;
    assert forall k | 1 <= k <= |t| :: s[k] == t[k - 1];
    assert s[|t| + 1] == '>';
    IndexOfAt(s, '>', |t| + 1);
    assert s[|t| + 2..] == q;
  }

  /** The text before the first tag is kept, the tag itself (from `<` to the
      first `>` after it) is deleted, and stripping goes on after it. With
      `StripTagsFixed` this fixes the result of every string: either it has no
      tag, or it splits as below. */
  lemma {:induction false} StripTagsDropsFirstTag(p: string, t: string, q: string)
    requires '<' !in p && '>' !in t
    ensures StripTags(p + ['<'] + t + ['>'] + q) == p + StripTags(q)
    decreases |p|
  {
    if p == [] {
      assert p + ['<'] + t + ['>'] + q == ['<'] + t + ['>'] + q;
      StripLeadingTag(t, q);
    } else {
      var s := p + ['<'] + t + ['>'] + q;
      assert s[0] == p[0] && s[1..] == p[1..] + ['<'] + t + ['>'] + q;
      StripTagsDropsFirstTag(p[1..], t, q);
      assert p == [p[0]] + p[1..];
    }
  }

  /** Stripping twice is stripping once. */
  lemma StripTagsIdempotent(s: string)
    ensures StripTags(StripTags(s)) == StripTags(s)
  {
    StripTagsFixed(StripTags(s));
  }

  /** The characters `.` does not match without the `s` flag. */
  predicate IsLineTerminator(c: char)
  {
    c == '\n' || c == '\r' || c == '\U{2028}' || c == '\U{2029}'
  }

  predicate LineFree(s: string)
  {
    forall k | 0 <= k < |s| :: !IsLineTerminator(s[k])
  }

  /** The lazy `(.*?)<\/em>` part matched at the start of `s`: the length of
      the shortest line-free prefix of `s` that is followed by `</em>`. */
  function CloseEm(s: string): (n: Option<nat>)
    ensures n.Some? ==> n.value + 5 <= |s| && s[n.value..n.value + 5] == "</em>" && LineFree(s[..n.value])
    ensures n.Some? ==> forall k | 0 <= k < n.value :: !("</em>" <= s[k..])
    decreases |s|
  {
    if "</em>" <= s then Some(0)
    else if s == [] || IsLineTerminator(s[0]) then None
    else
      match CloseEm(s[1..])
      case None => None
      case Some(m) =>
        assert forall k | 1 <= k <= m :: s[k..] == s[1..][k - 1..];
        assert s[1..][m..m + 5] == s[m + 1..m + 6];
        assert s[..m + 1] == [s[0]] + s[1..][..m];
        Some(m + 1)
  }

  /** `CloseEm` finds a closing tag whenever one follows a line-free run. */
  lemma {:induction false} CloseEmComplete(s: string, c: string)
    requires LineFree(c) && c + "</em>" <= s
    ensures CloseEm(s).Some?
    decreases |s|
  {
    if !("</em>" <= s) {
      assert c != [];
      assert s[0] == c[0];
      assert c[1..] + "</em>" <= s[1..] by {
        assert (c + "</em>")[1..] == c[1..] + "</em>";
      }
      CloseEmComplete(s[1..], c[1..]);
    }
  }

  /** The pattern `<em>(.*?)<\/em>` matches at position `p` of `s`. */
  predicate EmMatchAt(s: string, p: nat)
  {
    OccursAt(s, "<em>", p) && CloseEm(s[p + 4..]).Some?
  }

  /** The matches of a non-empty string past its first character are the
      matches of its tail, one position further on. */
  lemma EmMatchShift(s: string, p: nat)
    requires s != []
    ensures EmMatchAt(s, p + 1) <==> EmMatchAt(s[1..], p)
    ensures p + 5 <= |s| ==> s[p + 5..] == s[1..][p + 4..]
  {
    if p + 5 <= |s| {
      assert s[p + 1..p + 5] == s[1..][p..p + 4];
      assert s[p + 5..] == s[1..][p + 4..];
    }
  }

  /** `p` is the leftmost position where the pattern matches, and `v` its
      capture group. */
  predicate LeftmostEm(s: string, p: nat, v: string)
  {
    && EmMatchAt(s, p) && (forall q: nat | q < p :: !EmMatchAt(s, q))
    && v == s[p + 4..p + 4 + CloseEm(s[p + 4..]).value]
  }

  /** With no match at the first position, the leftmost match of `s` is the
      leftmost match of its tail, one position further on. */
  lemma LeftmostShift(s: string, v: string, p: nat)
    requires s != [] && !EmMatchAt(s, 0) && LeftmostEm(s[1..], p, v)
    ensures LeftmostEm(s, p + 1, v)
  {
    EmMatchShift(s, p);
    forall q: nat | q < p + 1
      ensures !EmMatchAt(s, q)
    {
      if q > 0 {
        EmMatchShift(s, q - 1);
      }
    }
    var n := CloseEm(s[1..][p + 4..]).value;
    assert s[1..][p + 4..p + 4 + n] == s[p + 5..p + 5 + n];
  }

  /** With no match at the first position nor in the tail, there is none. */
  lemma NoMatchShift(s: string)
    requires s != [] && !EmMatchAt(s, 0) && forall p: nat :: !EmMatchAt(s[1..], p)
    ensures forall p: nat :: !EmMatchAt(s, p)
  {
    forall p: nat
      ensures !EmMatchAt(s, p)
    {
      if p > 0 {
        EmMatchShift(s, p - 1);
      }
    }
  }

  /** The capture group of the first match of `/<em>(.*?)<\/em>/g` in `s`, or
      `None` when the pattern does not match (then `[...matchAll(..)][0]` is
      undefined and reading `[1]` of it throws). */
  function FirstEmphasis(s: string): (r: Option<string>)
    ensures r.Some? ==> LineFree(r.value)
    ensures r.Some? ==> Contains(s, "<em>" + r.value + "</em>")
    decreases |s|
  {
    if s == [] then None
    else if "<em>" <= s && CloseEm(s[4..]).Some? then
      var n := CloseEm(s[4..]).value;
      assert s[..4] == "<em>" && s[4..][..n] == s[4..4 + n] && s[4..][n..n + 5] == s[4 + n..n + 9];
      assert "<em>" + s[4..4 + n] + "</em>" == s[..n + 9];
      Some(s[4..4 + n])
    else
      FirstEmphasis(s[1..])
  }

  /** `FirstEmphasis` takes the leftmost match: it is `None` exactly when the
      pattern matches nowhere, and otherwise the group of the match at the
      first position where the pattern matches. */
  lemma {:induction false} FirstEmphasisLeftmost(s: string)
    ensures FirstEmphasis(s).None? <==> forall p: nat :: !EmMatchAt(s, p)
    ensures FirstEmphasis(s).Some? ==> exists p: nat :: LeftmostEm(s, p, FirstEmphasis(s).value)
    decreases |s|
  {
    if s == [] {
    } else if "<em>" <= s && CloseEm(s[4..]).Some? {
      var n := CloseEm(s[4..]).value;
      assert s[..4] == "<em>";
      assert LeftmostEm(s, 0, s[4..4 + n]);
    } else {
      assert !EmMatchAt(s, 0) by {
        if OccursAt(s, "<em>", 0) {
          assert s[..4] == "<em>";
        }
      }
      FirstEmphasisLeftmost(s[1..]);
      var r := FirstEmphasis(s[1..]);
      if r.None? {
        NoMatchShift(s);
      } else {
        var p: nat :| LeftmostEm(s[1..], p, r.value);
        LeftmostShift(s, r.value, p);
      }
    }
  }

  /** Conversely, whenever a `<em>…</em>` span with a line-free body occurs in
      `s`, the pattern matches. */
  lemma {:induction false} FirstEmphasisComplete(s: string, c: string, p: nat)
    requires LineFree(c) && OccursAt(s, "<em>" + c + "</em>", p)
    ensures FirstEmphasis(s).Some?
    decreases p
  {
    if p == 0 {
      assert "<em>" <= s;
      assert c + "</em>" <= s[4..];
      CloseEmComplete(s[4..], c);
    } else if !("<em>" <= s && CloseEm(s[4..]).Some?) {
      assert OccursAt(s[1..], "<em>" + c + "</em>", p - 1);
      FirstEmphasisComplete(s[1..], c, p - 1);
    }
  }
}
