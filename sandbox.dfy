/**
 * The workspace guard of the convert_format handler: both paths are resolved
 * against the fixed root "/workspace" and each result must start with that
 * string. The test is a plain string prefix with no separator after it, so it
 * admits the root itself, everything below it, and also siblings such as
 * "/workspacex/a".
 */
module Sandbox {
  import opened PosixPath

  /** Where the workspace is mounted inside the container. */
  const Workspace: string := "/workspace"

  /** The guard as written: the resolved path starts with "/workspace". */
  predicate PassesGuard(abs: string)
  {
    Workspace <= abs
  }

  /** The handler goes on only when both resolved paths pass the guard. */
  predicate Admits(absIn: string, absOut: string)
  {
    PassesGuard(absIn) && PassesGuard(absOut)
  }

  /** Containment proper: the root itself or a path below it. */
  predicate IsWithin(root: string, abs: string)
  {
    abs == root || root + "/" <= abs
  }

  /**
   * The guard admits exactly what lies within the workspace plus the paths that
   * continue the root's last name with further characters.
   */
  lemma GuardGap(abs: string)
    ensures PassesGuard(abs) <==>
      IsWithin(Workspace, abs) || (|abs| > |Workspace| && Workspace <= abs && abs[|Workspace|] != '/')
  {
    var n := |Workspace|;
    if Workspace + "/" <= abs {
      assert abs[..n] == (Workspace + "/")[..n] == Workspace;
    }
    if PassesGuard(abs) && |abs| > n && abs[n] == '/' {
      assert abs[..n + 1] == Workspace + "/";
    }
  }

  /** A root made of one name splits into the empty piece before it and that name. */
  lemma SplitOfRoot(root: string, x: string)
    requires '/' !in x && root == "/" + x
    ensures Split(root) == ["", x]
  {
    assert root == "" + "/" + x;
    SplitAppend("", x);
    SplitNoSeparator(x);
  }

  /** A canonical root other than "/" has no ".." piece and normalises to a non-empty stack that renders back to it. */
  lemma CanonicalRootPieces(root: string)
    requires IsCanonical(root) && root != "/"
    ensures NoParent(Split(root))
    ensures Normalize(Split(root)) != [] && Render(Normalize(Split(root))) == root
  {
    CanonicalIsFixed(root);
    var ps := Split(root);
    AllNamesNoParent(ps[1..]);
    forall k | 0 <= k < |ps| ensures ps[k] != ".." {
      if k > 0 { assert ps[k] == ps[1..][k - 1]; }
    }
    assert Render([]) == "/";
  }

  /** Below any canonical root other than "/", a relative path with no ".." piece stays within the root. */
  lemma PlainRelativeStaysWithinRoot(root: string, p: string)
    requires IsCanonical(root) && root != "/"
    requires !IsAbsolute(p) && NoParent(Split(p))
    ensures IsWithin(root, Resolve(root, p))
  {
    ResolveRelative(root, p);
    CanonicalRootPieces(root);
    NormalizeAppendNoParent(Split(root), Split(p));
    var base := Normalize(Split(root));
    var rest := Names(Split(p));
    if rest != [] {
      RenderAppend(base, rest);
    } else {
      assert base + rest == base;
    }
  }

  /** A relative path with no ".." piece resolves to the workspace root or below it, and passes the guard. */
  lemma PlainRelativeStaysWithin(p: string)
    requires !IsAbsolute(p)
    requires NoParent(Split(p))
    ensures IsWithin(Workspace, Resolve(Workspace, p))
    ensures PassesGuard(Resolve(Workspace, p))
  {
    SplitOfRoot(Workspace, "workspace");
    assert IsCanonical(Workspace) by {
      assert Split(Workspace)[1..] == ["workspace"];
    }
    PlainRelativeStaysWithinRoot(Workspace, p);
    GuardGap(Resolve(Workspace, p));
  }

  /** Leaving the workspace takes an absolute argument or a ".." piece. */
  lemma EscapeNeedsAbsoluteOrParent(p: string)
    requires !IsWithin(Workspace, Resolve(Workspace, p))
    ensures IsAbsolute(p) || !NoParent(Split(p))
  {
    if !IsAbsolute(p) && NoParent(Split(p)) {
      PlainRelativeStaysWithin(p);
    }
  }

  /** Both ways out of the workspace end at "/" plus the remaining names; the guard then looks only at their text. */
  lemma GuardOnRendered(names: seq<string>)
    ensures PassesGuard(Render(names)) <==> "workspace" <= Glue(names)
  {
    var g := Glue(names);
    var s := "/" + g;
    assert Workspace == "/" + "workspace";
    if "workspace" <= g {
      assert s[..10] == "/" + g[..9];
    }
    if Workspace <= s {
      assert s[..10] == Workspace;
      assert g[..9] == s[1..10] == Workspace[1..];
    }
  }

  /** Below a one-name root, "../a/b" climbs to the file system root and lands on "/a/b". */
  lemma ParentThenTwoNames(root: string, x: string, p: string, a: string, b: string)
    requires root == "/" + x && IsName(x) && IsName(a) && IsName(b)
    requires p == "../" + a + "/" + b
    ensures Resolve(root, p) == "/" + a + "/" + b
  {
    SplitOfRoot(root, x);
    var q := a + "/" + b;
    assert p == "../" + q;
    SplitTwo(a, b);
    NamesOfNames([a, b]);
    ResolveParentOfSingleName(root, x, q);
    RenderTwo(a, b);
  }

  /** An absolute "/a/b" replaces whatever root it is resolved against. */
  lemma AbsoluteTwoNames(root: string, p: string, a: string, b: string)
    requires IsAbsolute(root) && IsName(a) && IsName(b)
    requires p == "/" + a + "/" + b
    ensures Resolve(root, p) == p
  {
    var q := a + "/" + b;
    assert p == "/" + q;
    SplitTwo(a, b);
    NamesOfNames([a, b]);
    ResolveAbsoluteNoParent(root, q);
    RenderTwo(a, b);
  }

  /** "." and "" name a one-name root itself. */
  lemma DotIsRoot(root: string, x: string, p: string)
    requires root == "/" + x && IsName(x)
    requires p == "." || p == ""
    ensures Resolve(root, p) == root
  {
    SplitOfRoot(root, x);
    SplitNoSeparator(p);
    ResolveRelative(root, p);
    NormalizeSnoc(Split(root), p);
    NormalizeOneName(Split(root), x);
    assert Render([x]) == "/" + x;
  }

  /** A name followed by a separator starts with "workspace" exactly when the name does. */
  lemma PrefixOfFirstName(a: string, rest: string)
    requires '/' !in a
    ensures "workspace" <= a + "/" + rest <==> "workspace" <= a
  {
    var s := a + "/" + rest;
    if |a| >= 9 {
      assert s[..9] == a[..9];
    } else {
      assert s[|a|] == '/' != "workspace"[|a|];
    }
  }

  /**
   * From the workspace, "../a/b" and "/a/b" both land on "/a/b", and the guard
   * lets that through exactly when the name a starts with "workspace".
   */
  lemma TwoNameEscape(a: string, b: string)
    requires IsName(a) && IsName(b)
    ensures Resolve(Workspace, "../" + a + "/" + b) == "/" + a + "/" + b
    ensures Resolve(Workspace, "/" + a + "/" + b) == "/" + a + "/" + b
    ensures PassesGuard("/" + a + "/" + b) <==> "workspace" <= a
  {
    assert Resolve(Workspace, "../" + a + "/" + b) == "/" + a + "/" + b by {
      ParentThenTwoNames(Workspace, "workspace", "../" + a + "/" + b, a, b);
    }
    assert Resolve(Workspace, "/" + a + "/" + b) == "/" + a + "/" + b by {
      AbsoluteTwoNames(Workspace, "/" + a + "/" + b, a, b);
    }
    assert PassesGuard("/" + a + "/" + b) <==> "workspace" <= a by {
      RenderTwo(a, b);
      GuardOnRendered([a, b]);
      PrefixOfFirstName(a, b);
    }
  }

  /**
   * "../etc/passwd" and "/etc/passwd" both resolve to "/etc/passwd", which the guard refuses.
   * The names are parameters fixed by the requires: with the literals written into the
   * ensures, the solver unfolds the recursive path functions on them and runs out of resource.
   */
  lemma EscapesAreRefused(a: string, b: string)
    requires a == "etc" && b == "passwd"
    ensures Resolve(Workspace, "../" + a + "/" + b) == "/" + a + "/" + b
    ensures Resolve(Workspace, "/" + a + "/" + b) == "/" + a + "/" + b
    ensures !PassesGuard("/" + a + "/" + b)
  {
    TwoNameEscape(a, b);
    assert a[0] != "workspace"[0];
  }

  /** "/a/b" for a name a that strictly extends "workspace" passes the guard but lies outside the workspace. */
  lemma SiblingOutsideButAdmitted(a: string, b: string)
    requires IsName(a) && IsName(b) && "workspace" <= a && a != "workspace"
    ensures PassesGuard("/" + a + "/" + b) && !IsWithin(Workspace, "/" + a + "/" + b)
  {
    var s := "/" + a + "/" + b;
    assert s[..|Workspace|] == "/" + a[..|Workspace| - 1];
    assert s[|Workspace|] == a[|Workspace| - 1];
    GuardGap(s);
  }

  /**
   * "../workspacex/a" leaves the workspace for a sibling directory, yet the prefix test lets it through.
   * The names are parameters fixed by the requires, for the same reason as in EscapesAreRefused.
   */
  lemma SiblingPassesGuard(a: string, b: string)
    requires a == "workspacex" && b == "a"
    ensures Resolve(Workspace, "../" + a + "/" + b) == "/" + a + "/" + b
    ensures PassesGuard("/" + a + "/" + b) && !IsWithin(Workspace, "/" + a + "/" + b)
  {
    TwoNameEscape(a, b);
    SiblingOutsideButAdmitted(a, b);
  }

  /** "." and "" resolve to the workspace root itself, which the guard admits. */
  lemma RootItselfAdmitted(p: string)
    requires p == "." || p == ""
    ensures Resolve(Workspace, p) == Workspace && PassesGuard(Workspace)
  {
    DotIsRoot(Workspace, "workspace", p);
  }
}
