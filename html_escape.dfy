/** HTML escaping of free text before it is interpolated into the RSVP e-mail
    (the `escapeHtml` helper of the send-rsvp route), its inverse, and the
    properties that make the escaping safe: no raw markup characters survive,
    every ampersand starts an entity, and the escaping is undone exactly. */
module HtmlEscape {

  /** `s.replace(/c/g, rep)`: every occurrence of the character `c` is
      replaced by `rep`, scanning left to right. */
  function ReplaceChar(s: string, c: char, rep: string): (r: string)
    ensures c !in s ==> r == s
  {
    if s == [] then []
    else (if s[0] == c then rep else [s[0]]) + ReplaceChar(s[1..], c, rep)
  }

  /** `s.replace(/pat/g, rep)` for a literal pattern: occurrences are found
      left to right and do not overlap. */
  function ReplaceText(s: string, pat: string, rep: string): string
    requires |pat| > 0
    decreases |s|
  {
    if s == [] then []
    else if pat <= s then rep + ReplaceText(s[|pat|..], pat, rep)
    else [s[0]] + ReplaceText(s[1..], pat, rep)
  }

  /** The route's `escapeHtml`: four global replacements, `&` first.  Text
      without any of the four special characters (an apostrophe is not one of
      them) is returned unchanged. */
  function EscapeHtml(s: string): (r: string)
    ensures '&' !in s && '<' !in s && '>' !in s && '"' !in s ==> r == s
  {
    ReplaceChar(ReplaceChar(ReplaceChar(ReplaceChar(s, '&', "&amp;"), '<', "&lt;"), '>', "&gt;"), '"', "&quot;")
  }

  /** The four replacements undone in reverse order. */
  function UnescapeHtml(t: string): string
  {
    ReplaceText(ReplaceText(ReplaceText(ReplaceText(t, "&quot;", "\""), "&gt;", ">"), "&lt;", "<"), "&amp;", "&")
  }

  // ---------------------------------------------------------------------
  // A character-by-character reference definition.  Stage k escapes the
  // first k of the special characters, in the order the route replaces them.

  /** The special characters in replacement order. */
  function Special(i: nat): char
    requires i < 4
  {
    if i == 0 then '&' else if i == 1 then '<' else if i == 2 then '>' else '"'
  }

  /** The entity that replaces `Special(i)`. */
  function Entity(i: nat): (e: string)
    requires i < 4
    ensures |e| >= 4 && e[0] == '&' && '&' !in e[1..]
    ensures '<' !in e && '>' !in e && '"' !in e
  {
    if i == 0 then "&amp;" else if i == 1 then "&lt;" else if i == 2 then "&gt;" else "&quot;"
  }

  /** Position of `c` among the special characters, 4 when it is not one. */
  function SpecialIndex(c: char): (i: nat)
    ensures i <= 4
    ensures i < 4 ==> Special(i) == c
    ensures i == 4 ==> c != '&' && c != '<' && c != '>' && c != '"'
  {
    if c == '&' then 0 else if c == '<' then 1 else if c == '>' then 2 else if c == '"' then 3 else 4
  }

  function EscapeCharUpTo(c: char, k: nat): string
    requires k <= 4
  {
    if SpecialIndex(c) < k then Entity(SpecialIndex(c)) else [c]
  }

  function EscapeUpTo(s: string, k: nat): string
    requires k <= 4
  {
    if s == [] then [] else EscapeCharUpTo(s[0], k) + EscapeUpTo(s[1..], k)
  }

  /** The reference escaping: each character is escaped on its own. */
  function EscapeEach(s: string): string
  {
    EscapeUpTo(s, 4)
  }

  /** True when `t` has no `<`, `>` or `"`. */
  predicate NoRawMarkup(t: string)
  {
    forall i :: 0 <= i < |t| ==> t[i] != '<' && t[i] != '>' && t[i] != '"'
  }

  /** True when one of the four entities starts at position `i` of `t`. */
  predicate EntityAt(t: string, i: nat)
    requires i <= |t|
  {
    Entity(0) <= t[i..] || Entity(1) <= t[i..] || Entity(2) <= t[i..] || Entity(3) <= t[i..]
  }

  /** True when every `&` of `t` starts an entity. */
  predicate AmpersandsAreEntities(t: string)
  {
    forall i :: 0 <= i < |t| && t[i] == '&' ==> EntityAt(t, i)
  }

  // ---------------------------------------------------------------------
  // Helper lemmas

  lemma {:induction false} ReplaceCharAppend(a: string, b: string, c: char, rep: string)
    ensures ReplaceChar(a + b, c, rep) == ReplaceChar(a, c, rep) + ReplaceChar(b, c, rep)
  {
    if a != [] {
      assert (a + b)[0] == a[0];
      assert (a + b)[1..] == a[1..] + b;
      ReplaceCharAppend(a[1..], b, c, rep);
      var h := if a[0] == c then rep else [a[0]];
      assert ReplaceChar(a + b, c, rep) == h + ReplaceChar(a[1..] + b, c, rep);
      assert ReplaceChar(a, c, rep) == h + ReplaceChar(a[1..], c, rep);
    } else {
      assert a + b == b;
    }
  }

  lemma {:induction false} EscapeUpToAppend(a: string, b: string, k: nat)
    requires k <= 4
    ensures EscapeUpTo(a + b, k) == EscapeUpTo(a, k) + EscapeUpTo(b, k)
  {
    if a != [] {
      assert (a + b)[0] == a[0];
      assert (a + b)[1..] == a[1..] + b;
      EscapeUpToAppend(a[1..], b, k);
    } else {
      assert a + b == b;
    }
  }

  lemma {:induction false} EscapeUpToZero(s: string)
    ensures EscapeUpTo(s, 0) == s
  {
    if s != [] {
      EscapeUpToZero(s[1..]);
    }
  }

  /** Replacing the k-th special character after stage k - 1 gives stage k. */
  lemma {:induction false} ForwardStage(s: string, k: nat)
    requires 1 <= k <= 4
    ensures ReplaceChar(EscapeUpTo(s, k - 1), Special(k - 1), Entity(k - 1)) == EscapeUpTo(s, k)
  {
    if s != [] {
      var c := Special(k - 1);
      ReplaceCharAppend(EscapeCharUpTo(s[0], k - 1), EscapeUpTo(s[1..], k - 1), c, Entity(k - 1));
      ForwardStage(s[1..], k);
      var i := SpecialIndex(s[0]);
      if i < k - 1 {
        assert c !in Entity(i) by {
          if k == 1 { } else { assert c == '<' || c == '>' || c == '"'; }
        }
      } else if i == k - 1 {
        assert ReplaceChar([s[0]], c, Entity(k - 1)) == Entity(k - 1);
      } else {
        assert ReplaceChar([s[0]], c, Entity(k - 1)) == [s[0]];
      }
    }
  }

  /** Text free of `&` passes through an entity replacement untouched. */
  lemma {:induction false} ReplaceTextSkipsPlain(u: string, t: string, pat: string, rep: string)
    requires |pat| > 0 && pat[0] == '&' && '&' !in u
    ensures ReplaceText(u + t, pat, rep) == u + ReplaceText(t, pat, rep)
    decreases |u|
  {
    if u != [] {
      assert (u + t)[0] == u[0];
      assert !(pat <= u + t);
      assert (u + t)[1..] == u[1..] + t;
      ReplaceTextSkipsPlain(u[1..], t, pat, rep);
    } else {
      assert u + t == t;
    }
  }

  /** Undoing the k-th entity turns that entity back into its character. */
  lemma ReverseStageOwn(t: string, k: nat)
    requires 1 <= k <= 4
    ensures ReplaceText(Entity(k - 1) + t, Entity(k - 1), [Special(k - 1)])
            == [Special(k - 1)] + ReplaceText(t, Entity(k - 1), [Special(k - 1)])
  {
    var pat := Entity(k - 1);
    assert pat <= pat + t;
    assert (pat + t)[|pat|..] == t;
  }

  /** The four entities already differ in their second character. */
  lemma EntitiesDiffer(i: nat, j: nat)
    requires i < 4 && j < 4 && i != j
    ensures Entity(i)[1] != Entity(j)[1]
  {
  }

  /** An entity other than the pattern is copied through unchanged. */
  lemma {:induction false} ReplaceTextSkipsEntity(e: string, t: string, pat: string, rep: string)
    requires |e| >= 2 && e[0] == '&' && '&' !in e[1..]
    requires |pat| >= 2 && pat[0] == '&' && e[1] != pat[1]
    ensures ReplaceText(e + t, pat, rep) == e + ReplaceText(t, pat, rep)
  {
    assert (e + t)[1] == e[1];
    assert !(pat <= e + t);
    assert (e + t)[1..] == e[1..] + t;
    ReplaceTextSkipsPlain(e[1..], t, pat, rep);
    assert e == [e[0]] + e[1..];
  }

  /** Undoing the k-th entity leaves an earlier entity alone. */
  lemma ReverseStageOther(t: string, j: nat, k: nat)
    requires 1 <= k <= 4 && j < 4 && j != k - 1
    ensures ReplaceText(Entity(j) + t, Entity(k - 1), [Special(k - 1)])
            == Entity(j) + ReplaceText(t, Entity(k - 1), [Special(k - 1)])
  {
    EntitiesDiffer(j, k - 1);
    ReplaceTextSkipsEntity(Entity(j), t, Entity(k - 1), [Special(k - 1)]);
  }

  /** Undoing the k-th entity after stage k gives stage k - 1, one character at a time. */
  lemma ReverseStageChar(c: char, t: string, k: nat)
    requires 1 <= k <= 4
    ensures ReplaceText(EscapeCharUpTo(c, k) + t, Entity(k - 1), [Special(k - 1)])
            == EscapeCharUpTo(c, k - 1) + ReplaceText(t, Entity(k - 1), [Special(k - 1)])
  {
    var i := SpecialIndex(c);
    if i == k - 1 {
      ReverseStageOwn(t, k);
    } else if i < k - 1 {
      ReverseStageOther(t, i, k);
    } else {
      ReplaceTextSkipsPlain([c], t, Entity(k - 1), [Special(k - 1)]);
    }
  }

  lemma {:induction false} ReverseStage(s: string, k: nat)
    requires 1 <= k <= 4
    ensures ReplaceText(EscapeUpTo(s, k), Entity(k - 1), [Special(k - 1)]) == EscapeUpTo(s, k - 1)
  {
    if s != [] {
      ReverseStageChar(s[0], EscapeUpTo(s[1..], k), k);
      ReverseStage(s[1..], k);
    }
  }

  // ---------------------------------------------------------------------
  // Properties of escapeHtml

  /** The chained replacements escape each character independently. */
  lemma EscapeHtmlIsCharwise(s: string)
    ensures EscapeHtml(s) == EscapeEach(s)
  {
    EscapeUpToZero(s);
    ForwardStage(s, 1);
    ForwardStage(s, 2);
    ForwardStage(s, 3);
    ForwardStage(s, 4);
  }

  /** Undoing the four replacements in reverse order gives back the input. */
  lemma UnescapeEscape(s: string)
    ensures UnescapeHtml(EscapeHtml(s)) == s
  {
    EscapeHtmlIsCharwise(s);
    ReverseStage(s, 4);
    ReverseStage(s, 3);
    ReverseStage(s, 2);
    ReverseStage(s, 1);
    EscapeUpToZero(s);
  }

  /** Escaping distributes over concatenation. */
  lemma EscapeHtmlAppend(a: string, b: string)
    ensures EscapeHtml(a + b) == EscapeHtml(a) + EscapeHtml(b)
  {
    EscapeHtmlIsCharwise(a);
    EscapeHtmlIsCharwise(b);
    EscapeHtmlIsCharwise(a + b);
    EscapeUpToAppend(a, b, 4);
  }

  lemma {:induction false} EscapeEachNoMarkup(s: string)
    ensures NoRawMarkup(EscapeUpTo(s, 4))
  {
    if s != [] {
      EscapeEachNoMarkup(s[1..]);
      var h, t := EscapeCharUpTo(s[0], 4), EscapeUpTo(s[1..], 4);
      assert NoRawMarkup(h);
      assert forall i :: 0 <= i < |h + t| ==> (h + t)[i] == if i < |h| then h[i] else t[i - |h|];
    }
  }

  /** The output of escapeHtml contains no `<`, `>` or `"`. */
  lemma EscapeHtmlNoMarkup(s: string)
    ensures NoRawMarkup(EscapeHtml(s))
  {
    EscapeHtmlIsCharwise(s);
    EscapeEachNoMarkup(s);
  }

  lemma {:induction false} EscapeEachAmpersands(s: string)
    ensures AmpersandsAreEntities(EscapeUpTo(s, 4))
  {
    if s != [] {
      EscapeEachAmpersands(s[1..]);
      var h, t := EscapeCharUpTo(s[0], 4), EscapeUpTo(s[1..], 4);
      var w := h + t;
      forall i | 0 <= i < |w| && w[i] == '&'
        ensures EntityAt(w, i)
      {
        if i < |h| {
          assert h[i] == '&';
          var j := SpecialIndex(s[0]);
          assert j < 4 && h == Entity(j) && i == 0;
          assert w[i..] == Entity(j) + t;
        } else {
          assert t[i - |h|] == '&';
          assert EntityAt(t, i - |h|);
          assert w[i..] == t[i - |h|..];
        }
      }
    }
  }

  /** Since `&` is replaced first, every `&` of the output begins an entity. */
  lemma EscapeHtmlAmpersands(s: string)
    ensures AmpersandsAreEntities(EscapeHtml(s))
  {
    EscapeHtmlIsCharwise(s);
    EscapeEachAmpersands(s);
  }
}
