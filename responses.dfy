/** Recognising an answer in a chat message (main.go, the `TextMessage`
    listener): the plain text is trimmed as `strings.TrimSpace` does, and the
    tokens "1" to "4" stand for the answer positions 0 to 3. */
module Responses {
  import opened TriviaTypes

  /** Go's `unicode.IsSpace`: the ASCII white space characters, NEL, NBSP and
      the Unicode space separators. */
  predicate IsSpace(c: char)
  {
    || c == '\t' || c == '\n' || c == '\U{B}' || c == '\U{C}' || c == '\r' || c == ' '
    || c == '\U{85}' || c == '\U{A0}' || c == '\U{1680}'
    || ('\U{2000}' <= c <= '\U{200A}')
    || c == '\U{2028}' || c == '\U{2029}' || c == '\U{202F}' || c == '\U{205F}' || c == '\U{3000}'
  }

  predicate AllSpace(s: string)
  {
    forall k | 0 <= k < |s| :: IsSpace(s[k])
  }

  /** `s` without its leading white space. */
  function TrimLeft(s: string): (r: string)
    ensures |r| <= |s| && r == s[|s| - |r|..]
    ensures AllSpace(s[..|s| - |r|])
    ensures r != [] ==> !IsSpace(r[0])
  {
    if s != [] && IsSpace(s[0]) then TrimLeft(s[1..]) else s
  }

  /** `s` without its trailing white space. */
  function TrimRight(s: string): (r: string)
    ensures |r| <= |s| && r == s[..|r|]
    ensures AllSpace(s[|r|..])
    ensures r != [] ==> !IsSpace(r[|r| - 1])
  {
    if s != [] && IsSpace(s[|s| - 1]) then TrimRight(s[..|s| - 1]) else s
  }

  /** `strings.TrimSpace`. */
  function TrimSpace(s: string): string
  {
    TrimRight(TrimLeft(s))
  }

  lemma {:induction false} TrimLeftPadded(pre: string, t: string)
    requires AllSpace(pre)
    requires t == [] || !IsSpace(t[0])
    ensures TrimLeft(pre + t) == t
  {
    if pre != [] {
      assert (pre + t)[1..] == pre[1..] + t;
      TrimLeftPadded(pre[1..], t);
    } else {
      assert pre + t == t;
    }
  }

  lemma {:induction false} TrimRightPadded(t: string, post: string)
    requires AllSpace(post)
    requires t == [] || !IsSpace(t[|t| - 1])
    ensures TrimRight(t + post) == t
  {
    if post != [] {
      assert (t + post)[..|t + post| - 1] == t + post[..|post| - 1];
      TrimRightPadded(t, post[..|post| - 1]);
    } else {
      assert t + post == t;
    }
  }

  /** Trimming removes exactly the white space around a text that neither
      starts nor ends with white space. */
  lemma TrimPadded(pre: string, t: string, post: string)
    requires AllSpace(pre) && AllSpace(post)
    requires t != [] ==> !IsSpace(t[0]) && !IsSpace(t[|t| - 1])
    ensures TrimSpace(pre + t + post) == t
  {
    if t == [] {
      assert pre + t + post == (pre + post) + t;
      assert AllSpace(pre + post);
      TrimLeftPadded(pre + post, t);
    } else {
      assert pre + t + post == pre + (t + post);
      TrimLeftPadded(pre, t + post);
      TrimRightPadded(t, post);
    }
  }

  /** The token of answer position `k`: "1" for 0 up to "4" for 3. */
  function Token(k: nat): string
    requires k < 4
  {
    [('1' as int + k) as char]
  }

  /** The answer position a message names, if it names one. */
  function ResponseIndex(plain: string): (r: Option<nat>)
    ensures r.Some? ==> r.value < 4 && TrimSpace(plain) == Token(r.value)
    ensures r.None? ==> forall k | 0 <= k < 4 :: TrimSpace(plain) != Token(k)
  {
    match TrimSpace(plain)
    case "1" => Some(0)
    case "2" => Some(1)
    case "3" => Some(2)
    case "4" => Some(3)
    case _ => None
  }

  /** A token surrounded by any white space names its position. */
  lemma PaddedTokenRecognised(pre: string, k: nat, post: string)
    requires AllSpace(pre) && AllSpace(post)
    requires k < 4
    ensures ResponseIndex(pre + Token(k) + post) == Some(k)
  {
    TrimPadded(pre, Token(k), post);
  }
}
