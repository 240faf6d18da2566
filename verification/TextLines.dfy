/** Where the lines of a text end. */
module TextLines {

  predicate NoNewline(s: string) {
    '\n' !in s
  }

  /** The position of the first newline, or the length of a text without one. */
  function FirstNewline(s: string): (i: nat)
    ensures i <= |s| && (i < |s| ==> s[i] == '\n')
  {
    if s == "" || s[0] == '\n' then 0 else 1 + FirstNewline(s[1..])
  }

  lemma {:induction false} NewlineComesAfter(x: string, rest: string)
    requires NoNewline(x) && (rest == "" || rest[0] == '\n')
    ensures FirstNewline(x + rest) == |x|
  {
    if x == "" {
      assert x + rest == rest;
    } else {
      assert x[0] in x && (x + rest)[1..] == x[1..] + rest;
      NewlineComesAfter(x[1..], rest);
    }
  }

  lemma {:induction false} NoNewlineBefore(s: string)
    ensures NoNewline(s[..FirstNewline(s)])
  {
    if s != "" && s[0] != '\n' {
      NoNewlineBefore(s[1..]);
      assert s[..FirstNewline(s)] == [s[0]] + s[1..][..FirstNewline(s[1..])];
    }
  }
}
