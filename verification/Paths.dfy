/** Path names (NachOS/filesys/filesys.cc:185-208, NachOS/filesys/directory.cc:237-295). */
module Paths {
  import opened ByteCodec
  import opened DirectoryTable

  const Slash: Byte := 47

  // A path as FindPath and SplitPath take it: absolute, no empty component, no slash at
  // the end except in "/" itself.
  predicate WellFormed(name: Str) {
    && |name| > 0 && name[0] == Slash
    && (|name| > 1 ==> name[|name| - 1] != Slash)
    && forall i :: 0 <= i < |name| - 1 ==> !Doubled(name, i)
  }

  predicate Doubled(name: Str, i: nat)
    requires i < |name| - 1
  {
    name[i] == Slash && name[i + 1] == Slash
  }

  // The first slash from position i on, or the end.
  function NextSlash(name: Str, i: nat): (j: nat)
    requires i <= |name|
    ensures i <= j <= |name|
    ensures forall k :: i <= k < j ==> name[k] != Slash
    ensures j < |name| ==> name[j] == Slash
    decreases |name| - i
  {
    if i == |name| || name[i] == Slash then i else NextSlash(name, i + 1)
  }

  // The components of a path, each with its slash in front.
  function Components(name: Str): (c: seq<Str>)
    decreases |name|
  {
    if |name| <= 1 then []
    else
      var i := NextSlash(name, 1);
      [name[..i]] + Components(name[i..])
  }

  // The last slash; the path has one.
  function LastSlash(name: Str): (i: nat)
    requires exists k :: 0 <= k < |name| && name[k] == Slash
    ensures i < |name| && name[i] == Slash
    ensures forall k :: i < k < |name| ==> name[k] != Slash
    decreases |name|
  {
    var n := |name| - 1;
    if name[n] == Slash then n else
      assert forall k :: 0 <= k < n ==> name[..n][k] == name[k];
      LastSlash(name[..n])
  }

  function DirName(name: Str): (r: Str)
    requires exists k :: 0 <= k < |name| && name[k] == Slash
  {
    if LastSlash(name) <= 1 then [Slash] else name[..LastSlash(name)]
  }

  function BaseName(name: Str): (r: Str)
    requires exists k :: 0 <= k < |name| && name[k] == Slash
  {
    name[LastSlash(name)..]
  }

  // The two loops of SplitPath.
  method SplitPath(fullPath: Str) returns (path: Str, filename: Str)
    requires |fullPath| > 0 && fullPath[0] == Slash
    ensures path == DirName(fullPath) && filename == BaseName(fullPath)
  {
    var split := 0;
    var i := 0;
    while i < |fullPath|
      invariant 0 <= i <= |fullPath|
      invariant 0 <= split < |fullPath| && fullPath[split] == Slash && (split < i || i == 0)
      invariant forall k :: split < k < i ==> fullPath[k] != Slash
    {
      if fullPath[i] == Slash {
        split := i;
      }
      i := i + 1;
    }
    assert split == LastSlash(fullPath);
    path := [Slash];
    i := 1;
    while i < split
      invariant 1 <= i && (i <= split || split <= 1 == i)
      invariant path == if split <= 1 then [Slash] else fullPath[..i]
    {
      path := path + [fullPath[i]];
      i := i + 1;
    }
    filename := [];
    i := split;
    while i < |fullPath|
      invariant split <= i <= |fullPath|
      invariant filename == fullPath[split..i]
    {
      filename := filename + [fullPath[i]];
      i := i + 1;
    }
  }

  lemma LastSlashIs(name: Str, k: nat)
    requires k < |name| && name[k] == Slash && forall m :: k < m < |name| ==> name[m] != Slash
    ensures LastSlash(name) == k
  {
  }

  // The first component, and the rest.
  lemma ComponentsStep(name: Str, i: nat, rest: Str)
    requires |name| > 1 && 1 <= i <= |name| && (forall k :: 1 <= k < i ==> name[k] != Slash)
    requires i < |name| ==> name[i] == Slash
    requires rest == name[i..]
    ensures Components(name) == [name[..i]] + Components(rest)
  {
    NextSlashIs(name, 1, i);
  }

  lemma NextSlashIs(name: Str, i: nat, j: nat)
    requires i <= j <= |name| && (forall k :: i <= k < j ==> name[k] != Slash)
    requires j < |name| ==> name[j] == Slash
    ensures NextSlash(name, i) == j
  {
  }

  // Splitting cuts off the last component.
  lemma {:induction false} SplitComponents(name: Str)
    requires WellFormed(name) && |name| > 1
    ensures WellFormed(DirName(name)) && |BaseName(name)| > 1
    ensures Components(name) == Components(DirName(name)) + [BaseName(name)]
    decreases |name|
  {
    var i := NextSlash(name, 1);
    var rest := name[i..];
    ComponentsStep(name, i, rest);
    if i == |name| {
      LastSlashIs(name, 0);
      assert name[..i] == name;
    } else {
      RestWellFormed(name, i);
      SplitComponents(rest);
      var l := SplitStep(name, i, rest);
      FrontComponents(name, i, l, rest, DirName(name), DirName(rest));
      Regroup(name[..i], Components(DirName(rest)), BaseName(rest));
    }
  }

  function Join(c: seq<Str>): Str {
    if c == [] then [] else c[0] + Join(c[1..])
  }

  // A component has its one slash in front, and something behind it.
  predicate ComponentOk(c: Str) {
    |c| > 1 && c[0] == Slash && forall i :: 1 <= i < |c| ==> c[i] != Slash
  }

  // The components of a path, one behind the other, are the path.
  lemma {:induction false} JoinComponents(name: Str)
    requires WellFormed(name) && |name| > 1
    ensures Join(Components(name)) == name && forall c :: c in Components(name) ==> ComponentOk(c)
    decreases |name|
  {
    var i := NextSlash(name, 1);
    var rest := name[i..];
    ComponentsStep(name, i, rest);
    assert !Doubled(name, 0);
    if i == |name| {
      assert name[..i] == name && rest == [];
      assert Components(name) == [name];
    } else {
      RestWellFormed(name, i);
      JoinComponents(rest);
      assert Components(name)[1..] == Components(rest);
      assert name == name[..i] + rest;
    }
  }

  // The front of a path and its last component, put together again, are the path.
  lemma SplitJoins(name: Str)
    requires WellFormed(name) && |name| > 1
    ensures ComponentOk(BaseName(name)) && name == (if DirName(name) == [Slash] then [] else DirName(name)) + BaseName(name)
  {
    SplitComponents(name);
    hide Components;
    var l, front, last := LastSlash(name), DirName(name), BaseName(name);
    assert l != 1 by {
      assert !Doubled(name, 0);
    }
    CutAt(name, l, front, last);
  }

  lemma CutAt(name: Str, l: nat, front: Str, last: Str)
    requires l < |name| && l != 1 && |last| > 1 && last == name[l..] && front == if l <= 1 then [Slash] else name[..l]
    requires name[l] == Slash && forall k :: l < k < |name| ==> name[k] != Slash
    ensures ComponentOk(last) && name == (if front == [Slash] then [] else front) + last
  {
    assert l > 1 ==> |front| == l;
    assert name == name[..l] + name[l..];
  }

  // The last slash of a path and of what follows its first component.
  lemma SplitStep(name: Str, i: nat, rest: Str) returns (l: nat)
    requires WellFormed(name) && 1 < i < |name| && name[i] == Slash && rest == name[i..]
    requires WellFormed(rest) && |rest| > 1
    ensures l == LastSlash(rest) != 1 && i + l < |name|
    ensures WellFormed(DirName(name)) && DirName(name) == name[..i + l]
    ensures BaseName(name) == BaseName(rest)
  {
    l := LastSlash(rest);
    LastSlashIs(name, i + l);
    PrefixWellFormed(name, i + l);
    assert !Doubled(rest, 0);
  }

  // The front of a path up to slash i + l, where i is the first slash after the root's.
  lemma FrontComponents(name: Str, i: nat, l: nat, rest: Str, p: Str, q: Str)
    requires 1 < i <= i + l < |name| && l != 1 && rest == name[i..]
    requires p == name[..i + l] && q == if l <= 1 then [Slash] else rest[..l]
    requires (forall k :: 1 <= k < i ==> name[k] != Slash) && name[i] == Slash
    ensures Components(p) == [name[..i]] + Components(q)
  {
    assert p[..i] == name[..i];
    assert p[i..] == rest[..l];
    ComponentsStep(p, i, p[i..]);
  }

  lemma Regroup(x: Str, c: seq<Str>, y: Str)
    ensures [x] + (c + [y]) == ([x] + c) + [y]
  {
  }

  lemma RestWellFormed(name: Str, i: nat)
    requires WellFormed(name) && |name| > 1 && i == NextSlash(name, 1) < |name|
    ensures WellFormed(name[i..]) && |name[i..]| > 1 && i > 1
  {
    var rest := name[i..];
    assert rest[|rest| - 1] == name[|name| - 1];
    forall k | 0 <= k < |rest| - 1 ensures !Doubled(rest, k) {
      assert !Doubled(name, i + k);
    }
    assert !Doubled(name, 0) && !Doubled(name, i - 1);
  }

  lemma PrefixWellFormed(name: Str, i: nat)
    requires WellFormed(name) && 1 < i < |name| && name[i] == Slash
    ensures WellFormed(name[..i])
  {
    var p := name[..i];
    assert !Doubled(name, i - 1);
    assert p[|p| - 1] == name[i - 1];
    forall k | 0 <= k < |p| - 1 ensures !Doubled(p, k) {
      assert !Doubled(name, k);
    }
  }

  // What strtok has left to scan, as a path: the first call sees the leading slash, the later
  // ones start behind the slash that ended the token before.
  function Rooted(s: Str): Str {
    if |s| > 0 && s[0] == Slash then s else [Slash] + s
  }

  // strtok(s, "/"), where s is what the last call left: the next token, or NULL.
  method StrTok(s: Str) returns (found: bool, token: Str, rest: Str)
    requires WellFormed(Rooted(s))
    ensures found <==> Components(Rooted(s)) != []
    ensures found ==> [Slash] + token == Components(Rooted(s))[0]
    ensures found ==> Components(Rooted(rest)) == Components(Rooted(s))[1..]
    ensures found ==> WellFormed(Rooted(rest)) && |rest| < |s|
  {
    assert |s| > 1 ==> !Doubled(Rooted(s), 0);
    var i := 0;
    while i < |s| && s[i] == Slash
      invariant 0 <= i <= |s|
      invariant i <= 1 && (i == 1 ==> s[0] == Slash)
    {
      i := i + 1;
    }
    if i == |s| {
      return false, [], [];
    }
    var j := i;
    while j < |s| && s[j] != Slash
      invariant i <= j <= |s|
      invariant forall k :: i <= k < j ==> s[k] != Slash
    {
      j := j + 1;
    }
    found, token := true, s[i..j];
    rest := if j < |s| then s[j + 1..] else [];
    TokenIsComponent(s, i, j, rest);
  }

  lemma TokenIsComponent(s: Str, i: nat, j: nat, rest: Str)
    requires WellFormed(Rooted(s)) && i < |s| && i == (if s[0] == Slash then 1 else 0)
    requires i <= j <= |s| && (forall k :: i <= k < j ==> s[k] != Slash) && (j < |s| ==> s[j] == Slash)
    requires rest == if j < |s| then s[j + 1..] else []
    ensures |Components(Rooted(s))| > 0 && [Slash] + s[i..j] == Components(Rooted(s))[0]
    ensures WellFormed(Rooted(rest)) && Components(Rooted(rest)) == Components(Rooted(s))[1..]
  {
    if i == 1 {
      FirstToken(s, j, rest);
      assert s[..j] == [Slash] + s[1..j];
    } else {
      FirstToken([Slash] + s, j + 1, rest);
      assert ([Slash] + s)[..j + 1] == [Slash] + s[..j];
    }
  }

  // The token that ends at position j of a path, and what is left behind it.
  lemma FirstToken(name: Str, j: nat, rest: Str)
    requires WellFormed(name) && 1 <= j <= |name| && |name| > 1
    requires (forall k :: 1 <= k < j ==> name[k] != Slash) && (j < |name| ==> name[j] == Slash)
    requires rest == if j < |name| then name[j + 1..] else []
    ensures WellFormed(Rooted(rest)) && |Components(name)| > 0 && Components(name)[0] == name[..j]
    ensures Components(name)[1..] == Components(Rooted(rest))
  {
    ComponentsStep(name, j, name[j..]);
    if j < |name| {
      NextSlashIs(name, 1, j);
      RestWellFormed(name, j);
      assert !Doubled(name, j);
      assert name[j..] == [Slash] + rest;
    }
  }
}
