/** Stripping leading path components from archive entry names (taskFetchVersion.go, `unzipDocs`). */
module Strip {
  import opened Types

  function Slashes(s: string): nat {
    if s == "" then 0 else (if s[0] == '/' then 1 else 0) + Slashes(s[1..])
  }

  /** What follows the n-th slash of `name`; None when there are fewer than n slashes. */
  function DropComponents(name: string, n: nat): Option<string> {
    if n == 0 then Some(name)
    else if name == "" then None
    else DropComponents(name[1..], if name[0] == '/' then n - 1 else n)
  }

  /** The name an entry is saved under, or None when the entry is ignored. */
  function Stripped(name: string, n: int): Option<string> {
    if n <= 0 then Some(name)
    else
      var rest := match DropComponents(name, n) case None => name case Some(rest) => rest;
      if rest == "" then None else Some(rest)
  }

  /** The loop of the source: count slashes down from `n`, then cut after the one that reaches zero. */
  method SaveName(name: string, n: int) returns (saved: Option<string>)
    ensures saved == Stripped(name, n)
  {
    saved := Some(name);
    if n > 0 {
      var c := n;
      var idx := -1;
      var i := 0;
      while i < |name| && idx < 0
        invariant 0 <= i <= |name|
        invariant idx < 0 ==> c > 0 && idx == -1
        invariant idx < 0 ==> DropComponents(name, n) == DropComponents(name[i..], c)
        invariant idx >= 0 ==> idx < |name| && DropComponents(name, n) == Some(name[idx + 1..])
        decreases |name| - i, -idx
      {
        assert name[i..][1..] == name[i + 1..];
        if name[i] == '/' {
          c := c - 1;
          if c == 0 {
            idx := i;
          }
        }
        i := i + 1;
      }
      assert name[0..] == name;
      if idx + 1 == |name| {
        return None;
      }
      saved := Some(name[idx + 1..]);
    }
  }

  /** `p` is a run of exactly `n` leading components, each with its slash. */
  predicate ComponentPrefix(p: string, n: nat) {
    Slashes(p) == n && (p != "" ==> EndsWith(p, '/'))
  }

  lemma {:induction false} SlashesConcat(a: string, b: string)
    ensures Slashes(a + b) == Slashes(a) + Slashes(b)
  {
    if a == "" {
      assert a + b == b;
    } else {
      assert (a + b)[1..] == a[1..] + b;
      SlashesConcat(a[1..], b);
    }
  }

  /** Dropping succeeds exactly on names with enough slashes, and cuts off exactly n components. */
  lemma {:induction false} DropSplits(name: string, n: nat)
    ensures DropComponents(name, n) == None <==> Slashes(name) < n
    ensures DropComponents(name, n).Some? ==>
              var rest := DropComponents(name, n).value;
              exists p: string :: name == p + rest && ComponentPrefix(p, n)
  {
    if n == 0 {
      assert name == "" + name && ComponentPrefix("", 0);
    } else if name != "" {
      var m := if name[0] == '/' then n - 1 else n;
      DropSplits(name[1..], m);
      if DropComponents(name, n).Some? {
        var rest := DropComponents(name, n).value;
        var p: string :| name[1..] == p + rest && ComponentPrefix(p, m);
        var q := [name[0]] + p;
        assert q[1..] == p && q + rest == [name[0]] + name[1..] == name;
        assert p == "" ==> m == 0;
        assert ComponentPrefix(q, n);
      }
    }
  }

  lemma {:induction false} DropExact(p: string, rest: string, n: nat)
    requires ComponentPrefix(p, n)
    ensures DropComponents(p + rest, n) == Some(rest)
  {
    if p == "" {
      assert p + rest == rest;
    } else {
      assert (p + rest)[1..] == p[1..] + rest;
      if n == 0 {
        NoTrailingSlash(p);
      } else {
        var m := if p[0] == '/' then n - 1 else n;
        DropExact(p[1..], rest, m);
      }
    }
  }

  lemma {:induction false} NoTrailingSlash(p: string)
    requires EndsWith(p, '/')
    ensures Slashes(p) > 0
  {
    if |p| > 1 {
      assert p[1..][|p| - 2] == '/';
      NoTrailingSlash(p[1..]);
    }
  }

  /** The whole behaviour of stripping, in terms of how a name splits into components. */
  lemma StrippedCharacterised(name: string, n: nat)
    ensures Slashes(name) < n ==> Stripped(name, n) == if name == "" then None else Some(name)
    ensures forall p: string, rest: string :: n > 0 && ComponentPrefix(p, n) && name == p + rest ==>
              Stripped(name, n) == if rest == "" then None else Some(rest)
    ensures Slashes(name) >= n ==> exists p: string, rest: string :: ComponentPrefix(p, n) && name == p + rest
  {
    DropSplits(name, n);
    forall p: string, rest: string | n > 0 && ComponentPrefix(p, n) && name == p + rest
      ensures Stripped(name, n) == if rest == "" then None else Some(rest)
    {
      DropExact(p, rest, n);
    }
    if Slashes(name) >= n {
      var rest := DropComponents(name, n).value;
      var p: string :| name == p + rest && ComponentPrefix(p, n);
    }
  }

  lemma {:induction false} NoSlashes(s: string)
    ensures Slashes(s) == 0 <==> '/' !in s
  {
    if s != "" {
      NoSlashes(s[1..]);
      assert forall c :: c in s <==> c == s[0] || c in s[1..];
    }
  }

  /** A leading component is a text without a slash, and a slash. */
  lemma OneComponent(p: string)
    ensures ComponentPrefix(p, 1) <==> p != "" && p[|p| - 1] == '/' && '/' !in p[..|p| - 1]
  {
    if p != "" {
      var front := p[..|p| - 1];
      assert p == front + [p[|p| - 1]];
      SlashesConcat(front, [p[|p| - 1]]);
      assert [p[|p| - 1]][1..] == "";
      NoSlashes(front);
    }
  }

  /** Stripping one component: names without a slash are kept, the others lose everything up to their first slash, and
      an empty name is ignored. */
  lemma StripOneIff(name: string, saved: string)
    ensures Stripped(name, 1) == Some(saved) <==>
            saved != "" && (('/' !in name && saved == name) || exists dir: string :: LosesDirectory(name, dir, saved))
  {
    StrippedCharacterised(name, 1);
    NoSlashes(name);
    if Slashes(name) >= 1 {
      var p: string, rest: string :| ComponentPrefix(p, 1) && name == p + rest;
      OneComponent(p);
      assert p == p[..|p| - 1] + "/";
      assert LosesDirectory(name, p[..|p| - 1], rest);
    }
    forall dir: string | LosesDirectory(name, dir, saved)
      ensures Stripped(name, 1) == if saved == "" then None else Some(saved)
    {
      OneComponent(dir + "/");
      assert (dir + "/")[..|dir|] == dir;
      assert name == dir + "/" + saved;
    }
    if dir: string :| LosesDirectory(name, dir, saved) {
      assert name[|dir|] == '/';
    }
  }

  predicate LosesDirectory(name: string, dir: string, saved: string) {
    '/' !in dir && name == dir + "/" + saved
  }

  /** Entries under one common directory of depth n keep distinct names. */
  lemma StripInjective(p: string, a: string, b: string, n: nat)
    requires ComponentPrefix(p, n)
    requires Stripped(p + a, n) == Stripped(p + b, n) != None
    ensures a == b
  {
    DropExact(p, a, n);
    DropExact(p, b, n);
  }

  function Bind(name: Option<string>, n: int): Option<string> {
    match name case None => None case Some(s) => Stripped(s, n)
  }

  lemma {:induction false} DropCompose(name: string, n: nat, m: nat)
    ensures DropComponents(name, n + m) ==
            match DropComponents(name, n) case None => None case Some(rest) => DropComponents(rest, m)
  {
    if n > 0 && name != "" {
      DropCompose(name[1..], if name[0] == '/' then n - 1 else n, m);
    } else if n > 0 {
      assert n + m > 0;
    }
  }

  lemma DropLength(name: string, n: nat)
    requires DropComponents(name, n).Some?
    ensures |DropComponents(name, n).value| <= |name| && (n > 0 ==> |DropComponents(name, n).value| < |name|)
    ensures Slashes(DropComponents(name, n).value) == Slashes(name) - n
  {
    DropSplits(name, n);
    var rest := DropComponents(name, n).value;
    var p: string :| name == p + rest && ComponentPrefix(p, n);
    SlashesConcat(p, rest);
  }

  /** Stripping n and then m components is stripping n + m exactly when one of the two is zero, the name has
      all n + m slashes, or it has too few slashes for either step to do anything. */
  lemma StripCompose(name: string, n: nat, m: nat)
    ensures Bind(Stripped(name, n), m) == Stripped(name, n + m) <==>
            n == 0 || m == 0 || Slashes(name) >= n + m || (Slashes(name) < n && Slashes(name) < m)
  {
    DropSplits(name, n);
    DropSplits(name, m);
    DropSplits(name, n + m);
    DropCompose(name, n, m);
    if DropComponents(name, n).Some? {
      DropLength(name, n);
      DropSplits(DropComponents(name, n).value, m);
    }
    if DropComponents(name, m).Some? {
      DropLength(name, m);
    }
    if name != "" && n > 0 && m > 0 && DropComponents(name, n + m).Some? {
      DropLength(name, n + m);
    }
  }

  /** A directory entry keeps its trailing slash under any stripping. */
  lemma DirectoriesKeepSlash(name: string, n: int)
    requires EndsWith(name, '/') && Stripped(name, n).Some?
    ensures EndsWith(Stripped(name, n).value, '/')
  {
    if n > 0 && DropComponents(name, n).Some? {
      DropSplits(name, n);
      var rest := DropComponents(name, n).value;
      var p: string :| name == p + rest && ComponentPrefix(p, n);
      assert rest[|rest| - 1] == name[|name| - 1];
    }
  }
}
