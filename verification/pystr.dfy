/**
 * The Python string built-ins the core relies on, with Python's semantics:
 * truthiness of an optional string, `str.find`, `str.rfind`,
 * `str.replace("\n", "\\n")`, `str.split("/")`, the substring test `sub in s`
 * and `os.path.join` on POSIX paths.
 */
module PyStr {
  import opened Wrappers

  /** `bool(x)` for a value that is either `None` or a `str`: only a non-empty string is truthy. */
  predicate Truthy(x: Option<string>) {
    x.Some? && x.value != ""
  }

  /** `s.find(c)`: the lowest index holding `c`, or -1 when `c` does not occur. */
  function Find(s: string, c: char): (r: int)
    ensures r == -1 <==> c !in s
    ensures r != -1 ==> 0 <= r < |s| && s[r] == c && c !in s[..r]
  {
    if s == [] then -1
    else if s[0] == c then 0
    else
      var k := Find(s[1..], c);
      assert s[1..][..if k == -1 then 0 else k] == s[1..1 + if k == -1 then 0 else k];
      if k == -1 then -1 else k + 1
  }

  /** `s.rfind(c)`: the highest index holding `c`, or -1 when `c` does not occur. */
  function RFind(s: string, c: char): (r: int)
    ensures r == -1 <==> c !in s
    ensures r != -1 ==> 0 <= r < |s| && s[r] == c && c !in s[r + 1..]
  {
    if s == [] then -1
    else if s[|s| - 1] == c then |s| - 1
    else
      var k := RFind(s[..|s| - 1], c);
      assert k != -1 ==> s[k + 1..] == s[..|s| - 1][k + 1..] + [s[|s| - 1]];
      assert s == s[..|s| - 1] + [s[|s| - 1]];
      k
  }

  /** No line break anywhere in `s`. */
  predicate NoNewline(s: string) {
    '\n' !in s
  }

  /** `s.replace("\n", "\\n")`: every line break becomes a backslash followed by `n`. */
  function EscapeNewlines(s: string): (r: string)
    ensures NoNewline(r)
  {
    if s == [] then []
    else
      assert s == [s[0]] + s[1..];
      (if s[0] == '\n' then "\\n" else [s[0]]) + EscapeNewlines(s[1..])
  }

  /** Escaping works character by character, so it distributes over concatenation. */
  lemma {:induction false} EscapeNewlinesAppend(a: string, b: string)
    ensures EscapeNewlines(a + b) == EscapeNewlines(a) + EscapeNewlines(b)
  {
    if a == [] {
      assert a + b == b;
    } else {
      assert (a + b)[0] == a[0];
      assert (a + b)[1..] == a[1..] + b;
      EscapeNewlinesAppend(a[1..], b);
    }
  }

  /** One character: a line break becomes backslash and `n`, any other character stays. */
  lemma EscapeNewlinesChar(c: char)
    ensures EscapeNewlines([c]) == if c == '\n' then "\\n" else [c]
  {
    assert [c][1..] == [];
  }

  /** Text without line breaks is left exactly as it was. */
  lemma {:induction false} EscapeNewlinesIdentity(s: string)
    requires NoNewline(s)
    ensures EscapeNewlines(s) == s
  {
    if s != [] {
      assert s[0] != '\n';
      assert NoNewline(s[1..]) by { assert forall k :: 0 <= k < |s| - 1 ==> s[1..][k] == s[k + 1]; }
      EscapeNewlinesIdentity(s[1..]);
    }
  }

  /** `sub in s` for two strings: `sub` occurs contiguously somewhere in `s`. */
  predicate Contains(s: string, sub: string) {
    exists i :: 0 <= i <= |s| - |sub| && OccursAt(s, sub, i)
  }

  /** `sub` occurs in `s` starting at index `i`. */
  predicate OccursAt(s: string, sub: string, i: int)
    requires 0 <= i <= |s| - |sub|
  {
    s[i..i + |sub|] == sub
  }

  /** `s.split("/")`: the pieces between separators, always at least one (possibly empty) piece. */
  function Split(s: string): (parts: seq<string>)
    ensures |parts| >= 1
    ensures forall k :: 0 <= k < |parts| ==> '/' !in parts[k]
    decreases |s|
  {
    var i := Find(s, '/');
    if i == -1 then [s] else [s[..i]] + Split(s[i + 1..])
  }

  /** `os.path.join(a, b)` on POSIX: an absolute `b` replaces `a`; otherwise a `/` is inserted unless `a` is empty or already ends with one. */
  function Join(a: string, b: string): string {
    if |b| > 0 && b[0] == '/' then b
    else if a == "" || a[|a| - 1] == '/' then a + b
    else a + "/" + b
  }

  /** `os.path.join(p0, p1, ..., pn)`: join from the left. */
  function JoinAll(parts: seq<string>): string
    requires |parts| >= 1
  {
    JoinFrom(parts[0], parts[1..])
  }

  function JoinFrom(acc: string, rest: seq<string>): string
    decreases |rest|
  {
    if rest == [] then acc else JoinFrom(Join(acc, rest[0]), rest[1..])
  }

  /**
   * A relative path as `os.path.relpath` produces it: one or more non-empty
   * components separated by single slashes (no leading, trailing or doubled `/`).
   */
  predicate NormalRelative(s: string)
    decreases |s|
  {
    var i := Find(s, '/');
    if i == -1 then s != "" else i > 0 && NormalRelative(s[i + 1..])
  }

  /** Splitting a normal relative path at `/` and joining the pieces again gives the path back. */
  lemma {:induction false} JoinSplitRoundTrip(s: string)
    requires NormalRelative(s)
    ensures JoinAll(Split(s)) == s
  {
    var i := Find(s, '/');
    if i != -1 {
      JoinFromSplit(s[..i], s[i + 1..]);
      assert s == s[..i] + "/" + s[i + 1..];
    }
  }

  lemma {:induction false} JoinFromSplit(acc: string, s: string)
    requires acc != "" && acc[|acc| - 1] != '/'
    requires NormalRelative(s)
    ensures JoinFrom(acc, Split(s)) == acc + "/" + s
    decreases |s|
  {
    var i := Find(s, '/');
    if i == -1 {
      JoinComponent(acc, s, []);
    } else {
      var c, rest := s[..i], s[i + 1..];
      FirstComponent(s, i);
      JoinComponent(acc, c, Split(rest));
      JoinFromSplit(acc + "/" + c, rest);
      SlashAssoc(acc, c, rest);
    }
  }

  lemma SlashAssoc(a: string, b: string, c: string)
    ensures a + "/" + b + "/" + c == a + "/" + (b + "/" + c)
  {
  }

  /** The first component of a normal relative path: non-empty, slash-free, and followed by a normal path. */
  lemma FirstComponent(s: string, i: int)
    requires NormalRelative(s) && i == Find(s, '/') && i != -1
    ensures var c := s[..i];
      c != "" && c[0] != '/' && c[|c| - 1] != '/' && NormalRelative(s[i + 1..]) &&
      Split(s) == [c] + Split(s[i + 1..]) && s == c + "/" + s[i + 1..]
  {
    var c := s[..i];
    assert c[0] == s[0] && c[|c| - 1] == s[i - 1];
  }

  /** Joining one component without slashes at either end onto `acc` inserts exactly one `/`. */
  lemma JoinComponent(acc: string, c: string, rest: seq<string>)
    requires acc != "" && acc[|acc| - 1] != '/'
    requires c != "" && c[0] != '/'
    ensures JoinFrom(acc, [c] + rest) == JoinFrom(acc + "/" + c, rest)
  {
    assert ([c] + rest)[0] == c && ([c] + rest)[1..] == rest;
  }
}
