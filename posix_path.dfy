/**
 * Lexical POSIX path resolution, the behaviour of Node's `path.resolve(base, p)`
 * when `base` is absolute. The joined string is cut at every '/' into pieces,
 * and the pieces are read left to right onto a stack of names: an empty piece
 * and "." are skipped, ".." pops one name (and is dropped at the root), every
 * other piece is pushed. The result is "/" followed by the names joined with
 * '/'. No file system is consulted, so symbolic links play no part.
 */
module PosixPath {

  predicate IsAbsolute(p: string) { |p| > 0 && p[0] == '/' }

  /** A piece that survives normalisation: not empty, not "." or "..", and free of separators. */
  predicate IsName(piece: string) { piece != "" && piece != "." && piece != ".." && '/' !in piece }

  predicate AllNames(stack: seq<string>) { forall k :: 0 <= k < |stack| ==> IsName(stack[k]) }

  predicate NoParent(pieces: seq<string>) { forall k :: 0 <= k < |pieces| ==> pieces[k] != ".." }

  predicate NoSeparator(pieces: seq<string>) { forall k :: 0 <= k < |pieces| ==> '/' !in pieces[k] }

  /** The pieces of s between separators, empty ones included: Split("/a//b") == ["", "a", "", "b"]. */
  function Split(s: string): (pieces: seq<string>)
    ensures |pieces| >= 1
  {
    if s == [] then [""]
    else
      var init := Split(s[..|s| - 1]);
      if s[|s| - 1] == '/' then init + [""]
      else init[..|init| - 1] + [init[|init| - 1] + [s[|s| - 1]]]
  }

  /** The pieces joined with '/' in between; the inverse of Split. */
  function Glue(pieces: seq<string>): string
  {
    if |pieces| <= 1 then (if pieces == [] then "" else pieces[0])
    else Glue(pieces[..|pieces| - 1]) + "/" + pieces[|pieces| - 1]
  }

  /** How one piece changes the stack of names. */
  function Step(stack: seq<string>, piece: string): seq<string>
  {
    if piece == "" || piece == "." then stack
    else if piece == ".." then (if stack == [] then [] else stack[..|stack| - 1])
    else stack + [piece]
  }

  /** The stack of names left after reading every piece, from the root. */
  function Normalize(pieces: seq<string>): (stack: seq<string>)
    ensures |stack| <= |pieces|
  {
    if pieces == [] then [] else Step(Normalize(pieces[..|pieces| - 1]), pieces[|pieces| - 1])
  }

  /** The pieces other than "" and ".", in order. */
  function Names(pieces: seq<string>): seq<string>
  {
    if pieces == [] then []
    else
      var last := pieces[|pieces| - 1];
      Names(pieces[..|pieces| - 1]) + (if last == "" || last == "." then [] else [last])
  }

  /** The absolute path of a stack of names: "/" for the root, "/a/b" otherwise. */
  function Render(stack: seq<string>): string
  {
    "/" + Glue(stack)
  }

  /**
   * The string `path.resolve` hands to its normaliser: an absolute p replaces
   * the base, an empty p is skipped, and every argument it keeps is followed by '/'.
   */
  function Joined(base: string, p: string): string
  {
    if p == [] then base + "/"
    else if IsAbsolute(p) then p + "/"
    else base + "/" + p + "/"
  }

  /** `path.resolve(base, p)` for an absolute base. */
  function Resolve(base: string, p: string): string
    requires IsAbsolute(base)
  {
    Render(Normalize(Split(Joined(base, p))))
  }

  /** The resolved path is absolute and holds no empty, "." or ".." piece after its leading '/'. */
  predicate IsCanonical(r: string)
  {
    IsAbsolute(r) && (r == "/" || (Split(r)[0] == "" && AllNames(Split(r)[1..])))
  }

  // ---------------------------------------------------------------------------
  // The resolver as Node runs it: one pass over the characters with a stack.
  // ---------------------------------------------------------------------------

  /**
   * The reading of the rest of a path one character at a time, given the
   * stack so far and the piece being collected; the end of the string acts as
   * a last separator. This is the shape of Node's `normalizeString` loop.
   */
  function Scan(stack: seq<string>, piece: string, rest: string): seq<string>
    decreases |rest|
  {
    if rest == [] then Step(stack, piece)
    else if rest[0] == '/' then Scan(Step(stack, piece), "", rest[1..])
    else Scan(stack, piece + [rest[0]], rest[1..])
  }

  /**
   * A stack version of Node's `normalizeString` loop for an absolute path (Node
   * keeps the names in one string, counts dots, and pops by cutting at the last
   * '/'): one pass over the characters, the end of the string acting as a last separator. At each
   * separator the finished piece pops (".."), is skipped ("" and ".") or is pushed.
   */
  method NormalizeString(path: string) returns (stack: seq<string>)
    ensures stack == Normalize(Split(path))
  {
    stack := [];
    var piece: string := "";
    var i := 0;
    while i <= |path|
      invariant 0 <= i <= |path| + 1
      invariant i <= |path| ==> Scan(stack, piece, path[i..]) == Scan([], "", path)
      invariant i == |path| + 1 ==> stack == Scan([], "", path)
      decreases |path| + 1 - i
    {
      if i == |path| || path[i] == '/' {
        if i < |path| {
          assert path[i..][1..] == path[i + 1..];
        }
        if piece == ".." {
          if stack != [] {
            stack := stack[..|stack| - 1];
          }
        } else if piece != "" && piece != "." {
          stack := stack + [piece];
        }
        piece := "";
      } else {
        assert path[i..][1..] == path[i + 1..];
        piece := piece + [path[i]];
      }
      i := i + 1;
    }
    ScanNormalizes([], "", path);
    assert "" + path == path;
    assert [] + Split(path) == Split(path);
  }

  /** `path.resolve(base, p)`: join, normalise, then write "/" and the names joined with '/'. */
  method ResolvePath(base: string, p: string) returns (r: string)
    requires IsAbsolute(base)
    ensures r == Resolve(base, p)
  {
    var stack := NormalizeString(Joined(base, p));
    r := "/";
    var k := 0;
    while k < |stack|
      invariant 0 <= k <= |stack|
      invariant r == "/" + Glue(stack[..k])
    {
      assert stack[..k + 1][..k] == stack[..k];
      if k == 0 {
        r := r + stack[k];
      } else {
        r := r + "/" + stack[k];
      }
      k := k + 1;
    }
    assert stack[..|stack|] == stack;
  }

  // ---------------------------------------------------------------------------
  // Split and Glue
  // ---------------------------------------------------------------------------

  lemma {:induction false} SplitNoSeparator(s: string)
    requires '/' !in s
    ensures Split(s) == [s]
  {
    if s != [] {
      SplitNoSeparator(s[..|s| - 1]);
      assert s[..|s| - 1] + [s[|s| - 1]] == s;
    }
  }

  /** Split read one character at a time, as its definition does. */
  lemma SplitSnoc(s: string, c: char)
    ensures Split(s + [c]) == Extend(Split(s), c)
  {
    assert (s + [c])[..|s|] == s;
  }

  /** The pieces after one more character. */
  function Extend(pieces: seq<string>, c: char): seq<string>
    requires |pieces| >= 1
  {
    if c == '/' then pieces + [""]
    else pieces[..|pieces| - 1] + [pieces[|pieces| - 1] + [c]]
  }

  lemma ExtendAppend(xs: seq<string>, ys: seq<string>, c: char)
    requires |ys| >= 1
    ensures Extend(xs + ys, c) == xs + Extend(ys, c)
  {
    if c != '/' {
      assert (xs + ys)[..|xs + ys| - 1] == xs + ys[..|ys| - 1];
    }
  }

  /** No piece holds a separator. */
  lemma {:induction false} SplitHasNoSeparator(s: string)
    ensures NoSeparator(Split(s))
  {
    if s != [] {
      SplitHasNoSeparator(s[..|s| - 1]);
    }
  }

  lemma SplitTwo(a: string, b: string)
    requires '/' !in a && '/' !in b
    ensures Split(a + "/" + b) == [a, b]
  {
    SplitAppend(a, b);
    SplitNoSeparator(a);
    SplitNoSeparator(b);
  }

  /** Cutting at one more separator concatenates the pieces of both sides. */
  lemma {:induction false} SplitAppend(a: string, b: string)
    ensures Split(a + "/" + b) == Split(a) + Split(b)
  {
    if b == [] {
      SplitSnoc(a, '/');
      assert a + "/" + b == a + ['/'];
    } else {
      var b' := b[..|b| - 1];
      var c := b[|b| - 1];
      assert a + "/" + b == (a + "/" + b') + [c];
      assert b == b' + [c];
      SplitAppend(a, b');
      SplitSnoc(a + "/" + b', c);
      SplitSnoc(b', c);
      ExtendAppend(Split(a), Split(b'), c);
    }
  }

  lemma {:induction false} GlueSplit(s: string)
    ensures Glue(Split(s)) == s
  {
    if s != [] {
      var s' := s[..|s| - 1];
      GlueSplit(s');
      var init := Split(s');
      assert s' + [s[|s| - 1]] == s;
      if s[|s| - 1] == '/' {
        var ps := init + [""];
        assert ps[..|ps| - 1] == init;
      } else {
        var ps := init[..|init| - 1] + [init[|init| - 1] + [s[|s| - 1]]];
        if |init| > 1 {
          assert ps[..|ps| - 1] == init[..|init| - 1];
          assert Glue(init) == Glue(init[..|init| - 1]) + "/" + init[|init| - 1];
        }
      }
    }
  }

  lemma {:induction false} SplitGlue(pieces: seq<string>)
    requires |pieces| >= 1 && NoSeparator(pieces)
    ensures Split(Glue(pieces)) == pieces
  {
    var last := pieces[|pieces| - 1];
    if |pieces| == 1 {
      assert pieces == [last];
      SplitNoSeparator(last);
    } else {
      var init := pieces[..|pieces| - 1];
      assert NoSeparator(init) by {
        forall k | 0 <= k < |init| ensures '/' !in init[k] { assert init[k] == pieces[k]; }
      }
      assert '/' !in last;
      SplitGlue(init);
      assert Glue(pieces) == Glue(init) + "/" + last;
      SplitAppend(Glue(init), last);
      SplitNoSeparator(last);
      assert pieces[|pieces| - 1..] == [last];
      assert init + pieces[|pieces| - 1..] == pieces;
    }
  }

  lemma {:induction false} GlueAppend(xs: seq<string>, ys: seq<string>)
    requires xs != [] && ys != []
    ensures Glue(xs + ys) == Glue(xs) + "/" + Glue(ys)
  {
    var zs := xs + ys;
    if |ys| == 1 {
      assert zs[..|zs| - 1] == xs;
    } else {
      var ys' := ys[..|ys| - 1];
      assert zs[..|zs| - 1] == xs + ys';
      GlueAppend(xs, ys');
    }
  }

  lemma RenderTwo(a: string, b: string)
    ensures Render([a, b]) == "/" + a + "/" + b
  {
    assert [a, b][..1] == [a];
    assert Glue([a, b]) == Glue([a]) + "/" + b;
  }

  lemma RenderAppend(xs: seq<string>, ys: seq<string>)
    requires xs != [] && ys != []
    ensures Render(xs + ys) == Render(xs) + "/" + Glue(ys)
  {
    GlueAppend(xs, ys);
  }

  // ---------------------------------------------------------------------------
  // Normalize
  // ---------------------------------------------------------------------------

  /** Pieces without ".." never pop: they only add their names after what is there. */
  lemma {:induction false} NormalizeAppendNoParent(xs: seq<string>, ys: seq<string>)
    requires NoParent(ys)
    ensures Normalize(xs + ys) == Normalize(xs) + Names(ys)
  {
    if ys == [] {
      assert xs + ys == xs;
    } else {
      var ys' := ys[..|ys| - 1];
      NormalizeAppendNoParent(xs, ys');
      assert (xs + ys)[..|xs + ys| - 1] == xs + ys';
    }
  }

  lemma SplitRooted(s: string)
    ensures Split("/" + s) == [""] + Split(s)
  {
    assert "/" + s == "" + "/" + s;
    SplitAppend("", s);
  }

  /** From the root, pieces without ".." leave exactly their names. */
  lemma NormalizeRooted(ys: seq<string>)
    requires NoParent(ys)
    ensures Normalize([""] + ys) == Names(ys)
  {
    NormalizeAppendNoParent([""], ys);
    assert Normalize([""]) == Step(Normalize([]), "");
    assert [] + Names(ys) == Names(ys);
  }

  lemma AllNamesNoParent(ys: seq<string>)
    requires AllNames(ys)
    ensures NoParent(ys)
  {
    forall k | 0 <= k < |ys| ensures ys[k] != ".." { assert IsName(ys[k]); }
  }

  /** Reading pieces free of separators leaves only names on the stack. */
  lemma {:induction false} NormalizeGivesNames(pieces: seq<string>)
    requires NoSeparator(pieces)
    ensures AllNames(Normalize(pieces))
  {
    if pieces != [] {
      NormalizeGivesNames(pieces[..|pieces| - 1]);
    }
  }

  lemma NormalizeSnoc(xs: seq<string>, x: string)
    ensures Normalize(xs + [x]) == Step(Normalize(xs), x)
  {
    assert (xs + [x])[..|xs|] == xs;
  }

  /** The character-by-character reading agrees with cutting into pieces and normalising them. */
  lemma {:induction false} ScanNormalizes(xs: seq<string>, piece: string, rest: string)
    requires '/' !in piece
    ensures Scan(Normalize(xs), piece, rest) == Normalize(xs + Split(piece + rest))
    decreases |rest|
  {
    if rest == [] {
      ScanEnd(xs, piece, rest);
    } else if rest[0] == '/' {
      var tail := rest[1..];
      NormalizeSnoc(xs, piece);
      ScanSeparator(xs, piece, rest, tail);
      ScanNormalizes(xs + [piece], "", tail);
    } else {
      var tail := rest[1..];
      ScanCharacter(piece, rest, tail);
      ScanNormalizes(xs, piece + [rest[0]], tail);
    }
  }

  lemma ScanEnd(xs: seq<string>, piece: string, rest: string)
    requires '/' !in piece && rest == []
    ensures Step(Normalize(xs), piece) == Normalize(xs + Split(piece + rest))
  {
    assert piece + rest == piece;
    SplitNoSeparator(piece);
    NormalizeSnoc(xs, piece);
  }

  lemma ScanSeparator(xs: seq<string>, piece: string, rest: string, tail: string)
    requires '/' !in piece && rest != [] && rest[0] == '/' && tail == rest[1..]
    ensures xs + Split(piece + rest) == (xs + [piece]) + Split("" + tail)
  {
    assert piece + rest == piece + "/" + tail;
    SplitLeadingName(piece, tail);
    assert "" + tail == tail;
  }

  /** A first piece without separators is split off whole. */
  lemma SplitLeadingName(piece: string, tail: string)
    requires '/' !in piece
    ensures Split(piece + "/" + tail) == [piece] + Split(tail)
  {
    SplitAppend(piece, tail);
    SplitNoSeparator(piece);
  }

  lemma ScanCharacter(piece: string, rest: string, tail: string)
    requires rest != [] && tail == rest[1..]
    ensures piece + rest == (piece + [rest[0]]) + tail
  {
  }

  lemma {:induction false} NamesOfNames(ys: seq<string>)
    requires AllNames(ys)
    ensures Names(ys) == ys
  {
    if ys != [] {
      NamesOfNames(ys[..|ys| - 1]);
      assert ys[..|ys| - 1] + [ys[|ys| - 1]] == ys;
    }
  }

  lemma NormalizeDropsEmptyLast(xs: seq<string>)
    ensures Normalize(xs + [""]) == Normalize(xs)
  {
    assert (xs + [""])[..|xs|] == xs;
  }

  lemma {:induction false} SplitRender(stack: seq<string>)
    requires AllNames(stack)
    ensures Split(Render(stack)) == if stack == [] then ["", ""] else [""] + stack
  {
    if stack == [] {
      assert Render(stack) == "" + "/" + "";
      SplitAppend("", "");
    } else {
      assert Render(stack) == "" + "/" + Glue(stack);
      SplitAppend("", Glue(stack));
      SplitGlue(stack);
    }
  }

  /**
   * A relative argument (empty included) is read after the base's pieces; the
   * trailing separator `path.resolve` adds changes nothing.
   */
  lemma ResolveRelative(base: string, p: string)
    requires IsAbsolute(base) && !IsAbsolute(p)
    ensures Resolve(base, p) == Render(Normalize(Split(base) + Split(p)))
  {
    if p == [] {
      SplitAppend(base, "");
      assert Split(p) == [""];
    } else {
      assert base + "/" + p + "/" == base + "/" + (p + "/");
      SplitAppend(base, p + "/");
      SplitAppend(p, "");
      assert Split(base) + (Split(p) + [""]) == (Split(base) + Split(p)) + [""];
      NormalizeDropsEmptyLast(Split(base) + Split(p));
    }
  }

  /** The pieces of a root holding one name normalise to that name. */
  lemma NormalizeOneName(xs: seq<string>, x: string)
    requires xs == ["", x] && IsName(x)
    ensures Normalize(xs) == [x]
  {
    assert xs[..1] == [""];
    assert Normalize([""]) == [] by {
      assert [""][..0] == [];
    }
  }

  /** ".." directly below a single name returns to the root. */
  lemma NormalizeUp(xs: seq<string>, x: string)
    requires xs == ["", x] && IsName(x)
    ensures Normalize(xs + [".."]) == []
  {
    NormalizeSnoc(xs, "..");
    NormalizeOneName(xs, x);
  }

  lemma SplitParent(q: string)
    ensures Split("../" + q) == [".."] + Split(q)
  {
    assert "../" + q == ".." + "/" + q;
    SplitLeadingName("..", q);
  }

  lemma NormalizeParentOfSingleName(xs: seq<string>, x: string, ys: seq<string>)
    requires xs == ["", x] && IsName(x) && NoParent(ys)
    ensures Normalize(xs + ([".."] + ys)) == Names(ys)
  {
    assert xs + ([".."] + ys) == (xs + [".."]) + ys;
    NormalizeAppendNoParent(xs + [".."], ys);
    NormalizeUp(xs, x);
    assert [] + Names(ys) == Names(ys);
  }

  /** Below a root holding one name, a leading ".." climbs to "/" and the rest is read from there. */
  lemma ResolveParentOfSingleName(root: string, x: string, q: string)
    requires IsAbsolute(root) && Split(root) == ["", x] && IsName(x)
    requires NoParent(Split(q))
    ensures Resolve(root, "../" + q) == Render(Names(Split(q)))
  {
    SplitParent(q);
    NormalizeParentOfSingleName(Split(root), x, Split(q));
    ResolveRelative(root, "../" + q);
  }

  /** An absolute argument without ".." resolves to its own names, whatever the base. */
  lemma ResolveAbsoluteNoParent(base: string, q: string)
    requires IsAbsolute(base) && NoParent(Split(q))
    ensures Resolve(base, "/" + q) == Render(Names(Split(q)))
  {
    assert "/" + q == "" + "/" + q;
    SplitAppend("", q);
    NormalizeAppendNoParent([""], Split(q));
    assert Normalize([""]) == Step(Normalize([]), "") == [];
    assert [] + Names(Split(q)) == Names(Split(q));
    ResolveAbsolute(base, "/" + q);
  }

  /** An absolute argument is resolved on its own, whatever the base. */
  lemma ResolveAbsolute(base: string, p: string)
    requires IsAbsolute(base) && IsAbsolute(p)
    ensures Resolve(base, p) == Render(Normalize(Split(p)))
  {
    SplitAppend(p, "");
    NormalizeDropsEmptyLast(Split(p));
  }

  // ---------------------------------------------------------------------------
  // Properties of Resolve
  // ---------------------------------------------------------------------------

  lemma ResolveIsCanonical(base: string, p: string)
    requires IsAbsolute(base)
    ensures IsCanonical(Resolve(base, p))
  {
    var stack := Normalize(Split(Joined(base, p)));
    SplitHasNoSeparator(Joined(base, p));
    NormalizeGivesNames(Split(Joined(base, p)));
    SplitRender(stack);
    if stack != [] {
      assert Split(Render(stack))[1..] == stack;
    }
  }

  /** The normal form of a canonical path is the path itself. */
  lemma CanonicalIsFixed(q: string)
    requires IsCanonical(q)
    ensures Render(Normalize(Split(q))) == q
  {
    var tail := q[1..];
    assert q == "/" + tail;
    SplitRooted(tail);
    var names := Split(tail);
    if q == "/" {
      assert tail == [] && names == [""];
      NormalizeRooted(names);
      assert Names(names) == Names([]) + [];
    } else {
      assert names == Split(q)[1..];
      AllNamesNoParent(names);
      NormalizeRooted(names);
      NamesOfNames(names);
      GlueSplit(tail);
    }
  }

  /** Resolving an already resolved path changes nothing. */
  lemma ResolveIdempotent(base: string, p: string)
    requires IsAbsolute(base)
    ensures Resolve(base, Resolve(base, p)) == Resolve(base, p)
  {
    var q := Resolve(base, p);
    ResolveIsCanonical(base, p);
    ResolveAbsolute(base, q);
    CanonicalIsFixed(q);
  }
}
