/**
  Entry names and paths: the `strcmp` order, and splitting a path at its slashes.
 */
module Names {

  /** `strcmp(a, b) < 0` */
  predicate Less(a: string, b: string) {
    b != [] && (a == [] || a[0] < b[0] || (a[0] == b[0] && Less(a[1..], b[1..])))
  }

  lemma {:induction false} LessIrreflexive(a: string)
    ensures !Less(a, a)
  {
    if a != [] {
      LessIrreflexive(a[1..]);
    }
  }

  lemma {:induction false} LessTransitive(a: string, b: string, c: string)
    requires Less(a, b) && Less(b, c)
    ensures Less(a, c)
  {
    if a != [] && a[0] == b[0] == c[0] {
      LessTransitive(a[1..], b[1..], c[1..]);
    }
  }

  lemma {:induction false} LessTotal(a: string, b: string)
    requires a != b
    ensures Less(a, b) || Less(b, a)
  {
    if a != [] && b != [] && a[0] == b[0] {
      assert a == [a[0]] + a[1..] && b == [b[0]] + b[1..];
      LessTotal(a[1..], b[1..]);
    }
  }

  predicate HasSlash(s: string) {
    '/' in s
  }

  /** What a directory entry can be called. */
  predicate ValidName(s: string) {
    s != "" && !HasSlash(s) && |s| <= 255
  }

  /** `strchr(s, '/')`, as an index; the length of `s` when there is none. */
  function SlashAt(s: string): (k: nat)
    ensures k <= |s|
    ensures k < |s| ==> s[k] == '/'
    ensures !HasSlash(s[..k])
  {
    if s == "" then 0
    else if s[0] == '/' then 0
    else
      var k := SlashAt(s[1..]) + 1;
      assert s[..k] == [s[0]] + s[1..][..k - 1];
      k
  }

  /** The components of a path, empty ones included. */
  function Split(s: string): (cs: seq<string>)
    ensures cs != []
    ensures forall c :: c in cs ==> !HasSlash(c)
  {
    var k := SlashAt(s);
    if k == |s| then
      assert s[..k] == s;
      [s]
    else [s[..k]] + Split(s[k + 1..])
  }

  /** "/c1/c2/.../cn" */
  function Suffix(cs: seq<string>): string {
    if cs == [] then "" else "/" + cs[0] + Suffix(cs[1..])
  }

  lemma {:induction false} SplitInvertsSuffix(cs: seq<string>)
    requires cs != [] && forall c :: c in cs ==> !HasSlash(c)
    ensures Suffix(cs) != "" && Suffix(cs)[0] == '/'
    ensures Split(Suffix(cs)[1..]) == cs
  {
    hide HasSlash, Split, SlashAt;
    var rest := Suffix(cs[1..]);
    assert Suffix(cs)[1..] == cs[0] + rest;
    if |cs| > 1 {
      SplitInvertsSuffix(cs[1..]);
      SplitFirst(cs[0], rest);
      assert cs == [cs[0]] + cs[1..];
    } else {
      SplitFirst(cs[0], rest);
      assert cs == [cs[0]];
    }
  }

  lemma SplitFirst(c: string, rest: string)
    requires !HasSlash(c) && (rest == "" || rest[0] == '/')
    ensures Split(c + rest) == if rest == "" then [c] else [c] + Split(rest[1..])
  {
    hide HasSlash;
    SlashAtPrefix(c, rest);
    assert (c + rest)[..|c|] == c;
    if rest != "" {
      assert (c + rest)[|c| + 1..] == rest[1..];
    } else {
      assert c + rest == c;
    }
  }

  lemma {:induction false} SlashAtPrefix(c: string, rest: string)
    requires !HasSlash(c) && (rest == "" || rest[0] == '/')
    ensures SlashAt(c + rest) == |c|
  {
    if c == "" {
      assert c + rest == rest;
    } else {
      assert (c + rest)[1..] == c[1..] + rest;
      SlashAtPrefix(c[1..], rest);
    }
  }

  lemma {:induction false} SuffixInvertsSplit(s: string)
    ensures Suffix(Split(s)) == "/" + s
    decreases |s|
  {
    var k := SlashAt(s);
    if k == |s| {
      assert Suffix([s]) == "/" + s + Suffix([]);
    } else {
      SuffixInvertsSplit(s[k + 1..]);
      var cs := Split(s);
      assert cs[0] == s[..k] && cs[1..] == Split(s[k + 1..]);
      assert s == s[..k] + "/" + s[k + 1..];
    }
  }

  /** `path_under_basepath`: what follows the base, or nothing when the path is not under it. */
  function UnderBase(path: string, base: string): (r: Option<string>)
    ensures r.Some? <==> base <= path && (|path| == |base| || path[|base|] == '/')
    ensures r.Some? ==> path == base + r.value && (r.value == "" || r.value[0] == '/')
  {
    if !(base <= path) then None
    else if |path| > |base| && path[|base|] != '/' then None
    else Some(path[|base|..])
  }

  datatype Option<+T> = None | Some(value: T)
}
