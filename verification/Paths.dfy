/** Path strings and their components (k64_xfs.c:389-424, 456-465). */
module Paths {

  function TokenLength(p: string): (n: nat)
    ensures n <= |p| && '/' !in p[..n] && (n < |p| ==> p[n] == '/')
  {
    if p == "" || p[0] == '/' then 0 else
    var n := TokenLength(p[1..]);
    assert p[..1 + n] == [p[0]] + p[1..][..n];
    1 + n
  }

  /** The names between the slashes of a path. */
  function Components(p: string): seq<string>
    decreases |p|
  {
    if p == "" then []
    else if p[0] == '/' then Components(p[1..])
    else [p[..TokenLength(p)]] + Components(p[TokenLength(p)..])
  }

  lemma {:induction false} TokenLengthIs(p: string, n: nat)
    requires n <= |p| && '/' !in p[..n] && (n < |p| ==> p[n] == '/')
    ensures TokenLength(p) == n
  {
    var m := TokenLength(p);
    assert forall i :: 0 <= i < n ==> p[i] in p[..n];
    assert forall i :: 0 <= i < m ==> p[i] in p[..m];
  }

  /** A slash separates: what follows it is split on its own. */
  lemma {:induction false} ComponentsSplit(a: string, b: string)
    requires b == "" || b[0] == '/'
    ensures Components(a + b) == Components(a) + Components(b)
    decreases |a|
  {
    if a == "" {
      assert a + b == b;
    } else if a[0] == '/' {
      assert (a + b)[1..] == a[1..] + b;
      ComponentsSplit(a[1..], b);
    } else {
      var n := TokenLength(a);
      assert (a + b)[..n] == a[..n] && (a + b)[n..] == a[n..] + b;
      TokenLengthIs(a + b, n);
      ComponentsSplit(a[n..], b);
    }
  }

  lemma {:induction false} OnlySlashes(p: string)
    requires forall i :: 0 <= i < |p| ==> p[i] == '/'
    ensures Components(p) == []
  {
    if p != "" {
      OnlySlashes(p[1..]);
    }
  }

  lemma {:induction false} OneToken(name: string)
    requires name != "" && '/' !in name
    ensures Components(name) == [name]
  {
    TokenLengthIs(name, |name|);
    assert name[..|name|] == name && name[|name|..] == "";
  }

  lemma {:induction false} SlashThenToken(leaf: string)
    requires leaf != "" && '/' !in leaf
    ensures Components(['/'] + leaf) == [leaf]
  {
    OneToken(leaf);
    assert (['/'] + leaf)[1..] == leaf;
  }

  lemma {:induction false} JoinedComponents(head: string, leaf: string, slashes: string)
    requires leaf != "" && '/' !in leaf && forall i :: 0 <= i < |slashes| ==> slashes[i] == '/'
    ensures Components(head + (['/'] + leaf) + slashes) == Components(head) + [leaf]
  {
    SlashThenToken(leaf);
    OnlySlashes(slashes);
    ComponentsSplit(head, ['/'] + leaf);
    ComponentsSplit(head + (['/'] + leaf), slashes);
  }

  lemma {:induction false} CutAt(path: string, start: nat, len: nat)
    requires 0 < start < len <= |path| && path[start - 1] == '/'
    ensures path == path[..start - 1] + (['/'] + path[start..len]) + path[len..]
  {
    assert path[start - 1..len] == ['/'] + path[start..len];
    assert path[..len] == path[..start - 1] + path[start - 1..len];
    assert path == path[..len] + path[len..];
  }

  lemma {:induction false} LastComponent(path: string, start: nat, len: nat)
    requires 0 < start < len <= |path| && path[start - 1] == '/' && '/' !in path[start..len]
    requires forall i :: len <= i < |path| ==> path[i] == '/'
    ensures Components(path) == Components(path[..start - 1]) + [path[start..len]]
  {
    CutAt(path, start, len);
    JoinedComponents(path[..start - 1], path[start..len], path[len..]);
  }

  lemma {:induction false} LastStart(path: string, start: nat, len: nat)
    requires 0 < start < len <= |path| && path[start - 1] == '/' && '/' !in path[start..len]
    requires forall i :: len <= i < |path| ==> path[i] == '/'
    ensures TooDeep(path) <==> start - 1 >= PARENT_SIZE
  {
    assert forall i :: start <= i < len ==> path[i] in path[start..len];
    if start - 1 >= PARENT_SIZE {
      var n := start - 1;
      assert path[n] == '/' && path[n + 1] != '/';
    }
  }

  const PARENT_SIZE: nat := 256

  /** Some component starts too far into the path for its parent to fit in PARENT_SIZE bytes. */
  predicate TooDeep(path: string) {
    exists n :: PARENT_SIZE <= n < |path| - 1 && path[n] == '/' && path[n + 1] != '/'
  }

  /** The absolute paths that have a usable last component and a parent that is not too long. */
  predicate WellFormed(path: string, leafSize: nat) {
    && path != "" && path[0] == '/' && !TooDeep(path) && Components(path) != []
    && var last := Components(path)[|Components(path)| - 1]; |last| < leafSize && last != "." && last != ".."
  }

  /** Splits off the last component. */
  method SplitParent(path: string, leafSize: nat) returns (ok: bool, parent: string, leaf: string)
    ensures ok ==> parent != "" && parent[0] == '/' && Components(path) == Components(parent) + [leaf]
    ensures ok ==> 0 < |leaf| < leafSize && leaf != "." && leaf != ".."
    ensures ok <==> WellFormed(path, leafSize)
  {
    ok, parent, leaf := false, "", "";
    if path == "" || path[0] != '/' {
      return;
    }
    var len := |path|;
    while len > 1 && path[len - 1] == '/'
      invariant 1 <= len <= |path|
      invariant forall i :: len <= i < |path| ==> path[i] == '/'
    {
      len := len - 1;
    }
    if len <= 1 {
      OnlySlashes(path);
      return;
    }
    var start := len;
    while start > 0 && path[start - 1] != '/'
      invariant 0 < start <= len && '/' !in path[start..len]
    {
      start := start - 1;
    }
    leaf := path[start..len];
    LastComponent(path, start, len);
    assert TooDeep(path) <==> start - 1 >= PARENT_SIZE by {
      LastStart(path, start, len);
    }
    if len - start >= leafSize {
      return;
    }
    if start <= 1 {
      parent := "/";
      OnlySlashes(parent);
      OnlySlashes(path[..start - 1]);
    } else {
      if start - 1 >= PARENT_SIZE {
        return;
      }
      parent := path[..start - 1];
    }
    ok := leaf != "." && leaf != "..";
  }

  method SkipSlashes(path: string, from: nat) returns (pos: nat)
    requires from <= |path|
    ensures from <= pos <= |path| && (pos < |path| ==> path[pos] != '/')
    ensures Components(path[from..]) == Components(path[pos..])
  {
    pos := from;
    while pos < |path| && path[pos] == '/'
      invariant from <= pos <= |path|
      invariant Components(path[from..]) == Components(path[pos..])
    {
      assert path[pos..][1..] == path[pos + 1..];
      pos := pos + 1;
    }
  }

  /** Cuts a path into its components. */
  method Tokenize(path: string) returns (tokens: seq<string>)
    ensures tokens == Components(path)
  {
    tokens := [];
    var pos := SkipSlashes(path, 0);
    assert path[0..] == path;
    while pos < |path|
      invariant pos <= |path| && (pos < |path| ==> path[pos] != '/')
      invariant Components(path) == tokens + Components(path[pos..])
      decreases |path| - pos
    {
      var token, next := NextToken(path, pos);
      tokens, pos := tokens + [token], next;
    }
    assert path[pos..] == "";
  }

  /** The component at `from` and where the next one starts. */
  method NextToken(path: string, from: nat) returns (token: string, pos: nat)
    requires from < |path| && path[from] != '/'
    ensures from < pos <= |path| && (pos < |path| ==> path[pos] != '/')
    ensures Components(path[from..]) == [token] + Components(path[pos..])
  {
    var end := from;
    while end < |path| && path[end] != '/'
      invariant from <= end <= |path| && forall i :: from <= i < end ==> path[i] != '/'
    {
      end := end + 1;
    }
    token := path[from..end];
    FirstToken(path, from, end);
    pos := SkipSlashes(path, end);
  }

  lemma {:induction false} FirstToken(path: string, from: nat, end: nat)
    requires from < end <= |path| && (end < |path| ==> path[end] == '/')
    requires forall i :: from <= i < end ==> path[i] != '/'
    ensures Components(path[from..]) == [path[from..end]] + Components(path[end..])
  {
    var rest, n := path[from..], end - from;
    assert rest[..n] == path[from..end] && rest[n..] == path[end..];
    TokenLengthIs(rest, n);
  }
}
