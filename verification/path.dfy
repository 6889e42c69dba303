/**
 * The `con` command-line tool: each argument is split on `/` into a path of
 * identifiers, and each path is resolved in the configuration tree by
 * applying `get` once per identifier.
 */
module ConPath {
  import opened ConText
  import opened ConError
  import opened ConObject

  /** The argument with at most one leading `/` removed. */
  function StripLeadingSlash(arg: string): string
  {
    if |arg| > 0 && arg[0] == '/' then arg[1..] else arg
  }

  /** The text with at most one trailing `/` removed. */
  function StripTrailingSlash(s: string): string
  {
    if |s| > 0 && s[|s| - 1] == '/' then s[..|s| - 1] else s
  }

  /** Every `/`-separated piece of `s`, empty ones included: one more than there are slashes. */
  function Pieces(s: string): (p: seq<string>)
    ensures |p| == Count(s, '/') + 1
    ensures forall i :: 0 <= i < |p| ==> '/' !in p[i]
    decreases |s|
  {
    if |s| == 0 then [[]]
    else
      var p := Pieces(s[..|s| - 1]);
      if s[|s| - 1] == '/' then p + [[]]
      else p[..|p| - 1] + [p[|p| - 1] + [s[|s| - 1]]]
  }

  /** The pieces joined back together with `/` between neighbours. */
  function Join(p: seq<string>): string
    decreases |p|
  {
    if |p| == 0 then []
    else if |p| == 1 then p[0]
    else Join(p[..|p| - 1]) + "/" + p[|p| - 1]
  }

  /** The path an argument names: its pieces, without a trailing empty one. */
  function Segments(arg: string): (path: seq<string>)
    ensures forall i :: 0 <= i < |path| ==> '/' !in path[i]
  {
    var p := Pieces(StripLeadingSlash(arg));
    if p[|p| - 1] == [] then p[..|p| - 1] else p
  }

  /** The splitting loop for one argument, character by character as the tool does it. */
  method SplitArgument(arg: string) returns (path: seq<string>)
    ensures path == Segments(arg)
  {
    var s := StripLeadingSlash(arg);
    path := [];
    var current: string := [];
    var i := 0;
    while i < |s|
      invariant 0 <= i <= |s|
      invariant path + [current] == Pieces(s[..i])
      decreases |s| - i
    {
      assert s[..i + 1][..i] == s[..i];
      if s[i] == '/' {
        path := path + [current];
        current := [];
      } else {
        current := current + [s[i]];
      }
      i := i + 1;
    }
    assert s[..i] == s;
    if |current| > 0 {
      path := path + [current];
    }
  }

  /** One path per argument, in argument order. */
  method SplitArguments(args: seq<string>) returns (paths: seq<seq<string>>)
    ensures |paths| == |args|
    ensures forall i :: 0 <= i < |args| ==> paths[i] == Segments(args[i])
  {
    paths := [];
    var k := 0;
    while k < |args|
      invariant 0 <= k <= |args|
      invariant |paths| == k
      invariant forall i :: 0 <= i < k ==> paths[i] == Segments(args[i])
      decreases |args| - k
    {
      var path := SplitArgument(args[k]);
      paths := paths + [path];
      k := k + 1;
    }
  }

  // ---------------------------------------------------------------------------
  // Splitting and joining are inverse

  lemma JoinLastExtended(p: seq<string>, c: char)
    requires |p| > 0
    ensures Join(p[..|p| - 1] + [p[|p| - 1] + [c]]) == Join(p) + [c]
  {
    var q := p[..|p| - 1] + [p[|p| - 1] + [c]];
    if |p| > 1 {
      assert q[..|q| - 1] == p[..|p| - 1];
    }
  }

  /** Joining the pieces of a text gives the text back. */
  lemma {:induction false} JoinPieces(s: string)
    ensures Join(Pieces(s)) == s
    decreases |s|
  {
    if |s| > 0 {
      var init := s[..|s| - 1];
      var p := Pieces(init);
      JoinPieces(init);
      if s[|s| - 1] == '/' {
        assert (p + [[]])[..|p|] == p;
      } else {
        JoinLastExtended(p, s[|s| - 1]);
      }
      assert init + [s[|s| - 1]] == s;
    }
  }

  lemma {:induction false} PiecesAfterSlash(s: string, x: string)
    requires '/' !in x
    ensures Pieces(s + "/" + x) == Pieces(s) + [x]
    decreases |x|
  {
    var t := s + "/" + x;
    if |x| == 0 {
      assert t[..|t| - 1] == s;
    } else {
      var x' := x[..|x| - 1];
      assert t[..|t| - 1] == s + "/" + x';
      PiecesAfterSlash(s, x');
      assert x' + [x[|x| - 1]] == x;
    }
  }

  lemma {:induction false} PiecesWithoutSlash(x: string)
    requires '/' !in x
    ensures Pieces(x) == [x]
    decreases |x|
  {
    if |x| > 0 {
      PiecesWithoutSlash(x[..|x| - 1]);
      assert x[..|x| - 1] + [x[|x| - 1]] == x;
    }
  }

  /** Splitting the joined pieces gives the pieces back, when none holds a slash. */
  lemma {:induction false} PiecesOfJoin(p: seq<string>)
    requires |p| > 0
    requires forall i :: 0 <= i < |p| ==> '/' !in p[i]
    ensures Pieces(Join(p)) == p
    decreases |p|
  {
    if |p| == 1 {
      PiecesWithoutSlash(p[0]);
    } else {
      PiecesOfJoin(p[..|p| - 1]);
      PiecesAfterSlash(Join(p[..|p| - 1]), p[|p| - 1]);
      assert p[..|p| - 1] + [p[|p| - 1]] == p;
    }
  }

  lemma {:induction false} JoinStartsWithFirst(p: seq<string>)
    requires |p| > 0
    ensures p[0] <= Join(p)
    decreases |p|
  {
    if |p| > 1 {
      JoinStartsWithFirst(p[..|p| - 1]);
    }
  }

  /**
   * Joining the segments of an argument with `/` gives the argument back with
   * one leading and then one trailing `/` removed.
   */
  lemma JoinSegments(arg: string)
    ensures Join(Segments(arg)) == StripTrailingSlash(StripLeadingSlash(arg))
  {
    var s := StripLeadingSlash(arg);
    var p := Pieces(s);
    JoinPieces(s);
    if p[|p| - 1] == [] {
      if |p| == 1 {
        assert s == Join(p) == [];
      } else {
        assert s == Join(p[..|p| - 1]) + "/";
      }
    } else if |s| > 0 {
      assert s == Join(p);
      if |p| > 1 {
        assert s == Join(p[..|p| - 1]) + "/" + p[|p| - 1];
      }
      assert s[|s| - 1] == p[|p| - 1][|p[|p| - 1]| - 1];
      assert '/' !in p[|p| - 1];
    }
  }

  /**
   * Splitting the joined path gives the path back, when no segment holds a
   * slash and the first and last segments are not empty (a leading empty one
   * would become a stripped leading `/`, a trailing one a dropped piece).
   */
  lemma SegmentsOfJoin(path: seq<string>)
    requires forall i :: 0 <= i < |path| ==> '/' !in path[i]
    requires |path| > 0 ==> path[0] != [] && path[|path| - 1] != []
    ensures Segments(Join(path)) == path
  {
    if |path| > 0 {
      JoinStartsWithFirst(path);
      assert Join(path)[0] == path[0][0] != '/';
      PiecesOfJoin(path);
    }
  }

  /**
   * There is one segment per `/` in the stripped argument, plus one when text
   * follows the last `/`.
   */
  lemma SegmentCount(arg: string)
    ensures var s := StripLeadingSlash(arg);
            |Segments(arg)| == Count(s, '/') + (if |s| > 0 && s[|s| - 1] != '/' then 1 else 0)
  {
  }

  /** Interior empty segments are kept, and a leading `/` is skipped. */
  lemma InteriorEmptySegmentKept()
    ensures Segments("a//b") == ["a", "", "b"]
    ensures Segments("/a//b") == ["a", "", "b"]
  {
    PiecesOfJoin(["a", "", "b"]);
    assert Join(["a", "", "b"]) == "a//b";
    assert "/a//b"[1..] == "a//b";
  }

  /** A trailing empty segment is dropped. */
  lemma TrailingEmptySegmentDropped()
    ensures Segments("a/b/") == ["a", "b"]
  {
    PiecesOfJoin(["a", "b", ""]);
    assert Join(["a", "b", ""]) == "a/b/";
  }

  /** An empty argument and a lone `/` both name the root. */
  lemma EmptyArgumentNamesRoot()
    ensures Segments("") == [] && Segments("/") == []
  {
  }

  // ---------------------------------------------------------------------------
  // Resolving a path in the tree

  /** The node a path leads to from `root`, applying `get` left to right. */
  function Resolve(root: Node, path: seq<string>): (r: Result<Node>)
    ensures |path| == 0 ==> r == Success(root)
    ensures |path| == 1 ==> r == Get(root, path[0])
    decreases |path|
  {
    if |path| == 0 then Success(root)
    else
      var n :- Resolve(root, path[..|path| - 1]);
      Get(n, path[|path| - 1])
  }

  /** Resolving a longer path resolves its first part, then the rest from there. */
  lemma {:induction false} ResolveAppend(root: Node, a: seq<string>, b: seq<string>)
    ensures Resolve(root, a + b) ==
            match Resolve(root, a)
            case Failure(e) => Failure(e)
            case Success(n) => Resolve(n, b)
    decreases |b|
  {
    if |b| == 0 {
      assert a + b == a;
    } else {
      var ab := a + b;
      assert ab[..|ab| - 1] == a + b[..|b| - 1];
      ResolveAppend(root, a, b[..|b| - 1]);
    }
  }

  /**
   * Resolution fails at the first identifier that is not a child of the node
   * reached so far, with that identifier's not-found error.
   */
  lemma FailsAtFirstMissing(root: Node, path: seq<string>, k: nat)
    requires k < |path|
    requires Resolve(root, path[..k]).Success?
    requires path[k] !in Resolve(root, path[..k]).value.children
    ensures Resolve(root, path).Failure?
    ensures What(Resolve(root, path).error) == NotFoundText(path[k])
  {
    var rest := path[k + 1..];
    assert path == path[..k + 1] + rest;
    assert path[..k + 1][..k] == path[..k];
    ResolveAppend(root, path[..k + 1], rest);
  }

  /** Resolution succeeds exactly when every identifier is found along the way. */
  lemma {:induction false} ResolveSucceeds(root: Node, path: seq<string>)
    ensures Resolve(root, path).Success? <==>
            forall k :: 0 <= k < |path| ==>
              Resolve(root, path[..k]).Success? && path[k] in Resolve(root, path[..k]).value.children
    decreases |path|
  {
    if |path| > 0 {
      var init := path[..|path| - 1];
      ResolveSucceeds(root, init);
      forall k | 0 <= k < |init|
        ensures init[..k] == path[..k] && init[k] == path[k]
      {
      }
    }
  }

  /** The traversal loop of the tool: `location = &location->get( *it )` per identifier. */
  method ResolvePath(root: Node, path: seq<string>) returns (r: Result<Node>)
    ensures r == Resolve(root, path)
  {
    var location := root;
    var i := 0;
    while i < |path|
      invariant 0 <= i <= |path|
      invariant Resolve(root, path[..i]) == Success(location)
      decreases |path| - i
    {
      assert path[..i + 1][..i] == path[..i];
      var next := Get(location, path[i]);
      if next.Failure? {
        FailsAtFirstMissing(root, path, i);
        ResolveAppend(root, path[..i + 1], path[i + 1..]);
        assert path[..i + 1] + path[i + 1..] == path;
        return next;
      }
      location := next.value;
      i := i + 1;
    }
    assert path[..i] == path;
    r := Success(location);
  }
}
