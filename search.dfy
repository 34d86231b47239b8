/** The topic search: `title ILIKE '%q%' OR body ILIKE '%q%'`. The query
    text is put between two `%` without escaping, so a `%` or `_` typed by
    the user acts as a wildcard. The model compares after ASCII case folding
    and takes every other character literally, as SQLite does; PostgreSQL
    folds case beyond ASCII and reads `\` as an escape character. */
module Search {
  import opened Base

  /** SQL `LIKE` without an escape character: `%` matches any run of
      characters, `_` any one character, every other character itself. */
  predicate Like(s: string, p: string)
    decreases |s| + |p|
  {
    if p == [] then s == []
    else if p[0] == '%' then Like(s, p[1..]) || (s != [] && Like(s[1..], p))
    else s != [] && (p[0] == '_' || s[0] == p[0]) && Like(s[1..], p[1..])
  }

  predicate ILike(s: string, p: string)
  {
    Like(Fold(s), Fold(p))
  }

  /** The pattern `%q%`. */
  function Surround(q: string): string
  {
    "%" + q + "%"
  }

  /** The search predicate of one topic. */
  predicate TopicMatches(title: string, body: string, q: string)
  {
    ILike(title, Surround(q)) || ILike(body, Surround(q))
  }

  /** A query with no wildcard characters in it. */
  predicate Plain(q: string)
  {
    forall i | 0 <= i < |q| :: q[i] != '%' && q[i] != '_'
  }

  predicate IsPrefix(q: string, s: string)
  {
    |q| <= |s| && s[..|q|] == q
  }

  /** `q` occurs in `s` starting at index `i`. */
  predicate OccursAt(s: string, q: string, i: int)
  {
    0 <= i <= |s| - |q| && s[i..i + |q|] == q
  }

  /** `q` occurs in `s` as a contiguous substring. */
  predicate Contains(s: string, q: string)
  {
    exists i | 0 <= i <= |s| - |q| :: OccursAt(s, q, i)
  }

  /** A trailing `%` matches any rest. */
  lemma {:induction false} LikeAnything(s: string)
    ensures Like(s, "%")
    decreases |s|
  {
    if s != [] {
      LikeAnything(s[1..]);
    }
  }

  /** For a wildcard-free `q`, `q%` matches exactly the strings starting with `q`. */
  lemma {:induction false} LikePrefix(s: string, q: string)
    requires Plain(q)
    ensures Like(s, q + "%") <==> IsPrefix(q, s)
    decreases |q|
  {
    if q == [] {
      assert q + "%" == "%";
      LikeAnything(s);
    } else {
      var p := q + "%";
      assert p[0] == q[0] && p[1..] == q[1..] + "%";
      assert Plain(q[1..]);
      if s != [] {
        LikePrefix(s[1..], q[1..]);
        if |q| <= |s| {
          assert s[..|q|] == [s[0]] + s[1..][..|q| - 1];
        }
      }
    }
  }

  /** `q` occurs in `s` iff it is a prefix of `s` or occurs in its tail. */
  lemma ContainsStep(s: string, q: string)
    ensures Contains(s, q) <==> IsPrefix(q, s) || (s != [] && Contains(s[1..], q))
  {
    if Contains(s, q) && !IsPrefix(q, s) {
      var i :| 0 <= i <= |s| - |q| && OccursAt(s, q, i);
      assert i != 0;
      assert s[1..][i - 1..i - 1 + |q|] == q;
      assert OccursAt(s[1..], q, i - 1);
    }
    if s != [] && Contains(s[1..], q) {
      var i :| 0 <= i <= |s| - 1 - |q| && OccursAt(s[1..], q, i);
      assert s[i + 1..i + 1 + |q|] == s[1..][i..i + |q|];
      assert OccursAt(s, q, i + 1);
    }
    if IsPrefix(q, s) {
      assert OccursAt(s, q, 0);
    }
  }

  /** For a wildcard-free `q`, `%q%` is substring search. */
  lemma {:induction false} LikeIsSubstring(s: string, q: string)
    requires Plain(q)
    ensures Like(s, Surround(q)) <==> Contains(s, q)
    decreases |s|
  {
    var p := Surround(q);
    assert p[0] == '%' && p[1..] == q + "%";
    LikePrefix(s, q);
    ContainsStep(s, q);
    if s != [] {
      LikeIsSubstring(s[1..], q);
    }
  }

  lemma FoldSurround(q: string)
    ensures Fold(Surround(q)) == Surround(Fold(q))
  {
  }

  lemma FoldKeepsPlain(q: string)
    requires Plain(q)
    ensures Plain(Fold(q))
  {
  }

  /** A topic matches a wildcard-free query exactly when the case-folded
      query occurs in the case-folded title or body. */
  lemma PlainQueryIsSubstringSearch(title: string, body: string, q: string)
    requires Plain(q)
    ensures TopicMatches(title, body, q) <==> Contains(Fold(title), Fold(q)) || Contains(Fold(body), Fold(q))
  {
    FoldSurround(q);
    FoldKeepsPlain(q);
    LikeIsSubstring(Fold(title), Fold(q));
    LikeIsSubstring(Fold(body), Fold(q));
  }

  /** An `_` in the query matches any character: `a_c` finds `abc`, which
      does not contain the text `a_c`. */
  lemma UnderscoreIsAWildcard()
    ensures TopicMatches("abc", "", "a_c") && !Contains("abc", "a_c")
  {
    assert "abc"[0..3][1] != "a_c"[1];
    assert Fold("abc") == "abc";
    assert Fold(Surround("a_c")) == "%a_c%";
    assert Like("abc", "a_c%") by {
      assert Like("", "%");
    }
  }
}
