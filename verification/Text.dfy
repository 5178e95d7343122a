/** The few string operations of the host language that several components rely on. */
module Text {

  datatype Option<+T> = None | Some(value: T)

  /** `str.isspace`, which `str.strip` and the regular-expression class \s share. */
  predicate IsSpace(c: char) {
    || '\t' <= c <= '\r'
    || '\U{1C}' <= c <= ' '
    || c in {'\U{85}', '\U{A0}', '\U{1680}', '\U{2028}', '\U{2029}', '\U{202F}', '\U{205F}', '\U{3000}'}
    || '\U{2000}' <= c <= '\U{200A}'
  }

  function TrimLeft(s: string): string {
    if s != "" && IsSpace(s[0]) then TrimLeft(s[1..]) else s
  }

  function TrimRight(s: string): string {
    if s != "" && IsSpace(s[|s| - 1]) then TrimRight(s[..|s| - 1]) else s
  }

  /** Trimming removes white space only, and all of it. */
  lemma {:induction false} TrimLeftRemovesSpace(s: string)
    ensures var r := TrimLeft(s);
            && |r| <= |s| && r == s[|s| - |r|..] && (r == "" || !IsSpace(r[0]))
            && forall c :: c in s[..|s| - |r|] ==> IsSpace(c)
  {
    if s != "" && IsSpace(s[0]) {
      TrimLeftRemovesSpace(s[1..]);
      var r := TrimLeft(s);
      assert s[..|s| - |r|] == [s[0]] + s[1..][..|s[1..]| - |r|];
    }
  }

  lemma {:induction false} TrimRightRemovesSpace(s: string)
    ensures var r := TrimRight(s);
            && r <= s && (r == "" || !IsSpace(r[|r| - 1]))
            && forall c :: c in s[|r|..] ==> IsSpace(c)
    ensures s != "" && !IsSpace(s[0]) ==> TrimRight(s) != "" && TrimRight(s)[0] == s[0]
  {
    if s != "" && IsSpace(s[|s| - 1]) {
      TrimRightRemovesSpace(s[..|s| - 1]);
      var r := TrimRight(s);
      assert s[|r|..] == s[..|s| - 1][|r|..] + [s[|s| - 1]];
    }
  }

  function Strip(s: string): string {
    TrimRight(TrimLeft(s))
  }

  lemma StripIsIdempotent(s: string)
    ensures Strip(Strip(s)) == Strip(s)
  {
    TrimLeftRemovesSpace(s);
    TrimRightRemovesSpace(TrimLeft(s));
    if Strip(s) != "" {
      assert Strip(s)[0] == TrimLeft(s)[0];
    }
  }

  /** Cut at every separator. */
  function Split(s: string, sep: char): (parts: seq<string>)
    ensures |parts| > 0
  {
    if s == "" then [""]
    else if s[0] == sep then [""] + Split(s[1..], sep)
    else
      var rest := Split(s[1..], sep);
      [[s[0]] + rest[0]] + rest[1..]
  }

  lemma Associate<T>(a: seq<T>, b: seq<T>, c: seq<T>)
    ensures a + b + c == a + (b + c)
  {
  }

  predicate OccursAt(s: string, i: nat, sub: string) {
    sub <= s[if i <= |s| then i else |s|..]
  }

  predicate Contains(s: string, sub: string) {
    exists i: nat :: i <= |s| && OccursAt(s, i, sub)
  }
}
