/** `String.prototype.trim` as the input handler of src/index.js uses it:
    white space and line terminators are removed from both ends. */
module Text {

  /** The characters ECMAScript counts as WhiteSpace or LineTerminator. */
  predicate IsSpace(c: char) {
    || c == '\t' || c == '\n' || c == '\U{000B}' || c == '\U{000C}' || c == '\r'
    || c == ' ' || c == '\U{00A0}' || c == '\U{1680}'
    || ('\U{2000}' <= c <= '\U{200A}')
    || c == '\U{2028}' || c == '\U{2029}' || c == '\U{202F}' || c == '\U{205F}'
    || c == '\U{3000}' || c == '\U{FEFF}'
  }

  predicate AllSpace(s: string) {
    forall k | 0 <= k < |s| :: IsSpace(s[k])
  }

  /** A non-empty query with no white space at either end. */
  predicate Trimmed(q: string) {
    |q| > 0 && !IsSpace(q[0]) && !IsSpace(q[|q| - 1])
  }

  /** Drops leading white space: the result is a suffix of `s`, everything
      dropped is white space, and the result does not start with white space. */
  function TrimStart(s: string): (r: string)
    ensures |r| <= |s| && r == s[|s| - |r|..]
    ensures AllSpace(s[..|s| - |r|])
    ensures |r| == 0 || !IsSpace(r[0])
  {
    if |s| > 0 && IsSpace(s[0]) then TrimStart(s[1..]) else s
  }

  /** Drops trailing white space: the result is a prefix of `s`, everything
      dropped is white space, and the result does not end with white space. */
  function TrimEnd(s: string): (r: string)
    ensures |r| <= |s| && r == s[..|r|]
    ensures AllSpace(s[|r|..])
    ensures |r| == 0 || !IsSpace(r[|r| - 1])
  {
    if |s| > 0 && IsSpace(s[|s| - 1]) then TrimEnd(s[..|s| - 1]) else s
  }

  /** The trimmed query: empty exactly when `s` is all white space, and
      otherwise a query with no white space at either end. */
  function Trim(s: string): (r: string)
    ensures |r| <= |s|
    ensures |r| == 0 <==> AllSpace(s)
    ensures |r| > 0 ==> Trimmed(r)
  {
    var t := TrimStart(s);
    var r := TrimEnd(t);
    assert |r| == 0 ==> AllSpace(s) by {
      if |r| == 0 {
        assert s == s[..|s| - |t|] + t;
        assert t == t[|r|..];
      }
    }
    r
  }

  lemma {:induction false} TrimStartPadded(pre: string, x: string)
    requires AllSpace(pre)
    requires |x| == 0 || !IsSpace(x[0])
    ensures TrimStart(pre + x) == x
  {
    if |pre| > 0 {
      assert (pre + x)[1..] == pre[1..] + x;
      TrimStartPadded(pre[1..], x);
    } else {
      assert pre + x == x;
    }
  }

  lemma {:induction false} TrimEndPadded(x: string, post: string)
    requires AllSpace(post)
    requires |x| == 0 || !IsSpace(x[|x| - 1])
    ensures TrimEnd(x + post) == x
  {
    if |post| > 0 {
      assert (x + post)[..|x + post| - 1] == x + post[..|post| - 1];
      TrimEndPadded(x, post[..|post| - 1]);
    } else {
      assert x + post == x;
    }
  }

  /** Trim is characterised by padding: surrounding a trimmed query with any
      white space and trimming gives the query back. */
  lemma TrimPadded(pre: string, q: string, post: string)
    requires AllSpace(pre) && AllSpace(post)
    requires Trimmed(q)
    ensures Trim(pre + q + post) == q
  {
    assert pre + q + post == pre + (q + post);
    TrimStartPadded(pre, q + post);
    TrimEndPadded(q, post);
  }

  /** Trimming a query that is already trimmed changes nothing. */
  lemma TrimIdempotent(s: string)
    ensures Trim(Trim(s)) == Trim(s)
  {
    var q := Trim(s);
    if |q| > 0 {
      assert q == [] + q + [];
      TrimPadded([], q, []);
    }
  }
}
