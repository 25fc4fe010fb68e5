/**
 * gRPC server reflection over the compiled file descriptors: the index of the
 * files a listener's services need, and the answer for one file with all of
 * its imports.
 */
module Reflection {
  import opened Wrappers

  type Name = string

  /** The files each file imports, by name. */
  type Imports = map<Name, seq<Name>>

  /** Every import names a known file. */
  predicate Closed(imports: Imports) {
    forall f, d | f in imports && d in imports[f] :: d in imports
  }

  ghost predicate Path(imports: Imports, p: seq<Name>) {
    |p| > 0 && forall i | 0 <= i < |p| - 1 :: p[i] in imports && p[i + 1] in imports[p[i]]
  }

  /** `g` is `f` or one of its transitive imports. */
  ghost predicate Reaches(imports: Imports, f: Name, g: Name) {
    exists p :: Path(imports, p) && p[0] == f && p[|p| - 1] == g
  }

  ghost predicate Acyclic(imports: Imports) {
    forall f, d | f in imports && d in imports[f] :: !Reaches(imports, d, f)
  }

  lemma ReachesItself(imports: Imports, f: Name)
    ensures Reaches(imports, f, f)
  {
    assert Path(imports, [f]) && [f][0] == f;
  }

  lemma ReachesImport(imports: Imports, f: Name, g: Name, d: Name)
    requires Reaches(imports, f, g) && g in imports && d in imports[g]
    ensures Reaches(imports, f, d)
  {
    var p :| Path(imports, p) && p[0] == f && p[|p| - 1] == g;
    var q := p + [d];
    assert Path(imports, q) && q[0] == f && q[|q| - 1] == d;
  }

  lemma ReachesThrough(imports: Imports, f: Name, d: Name, g: Name)
    requires f in imports && d in imports[f] && Reaches(imports, d, g)
    ensures Reaches(imports, f, g)
  {
    var p :| Path(imports, p) && p[0] == d && p[|p| - 1] == g;
    var q := [f] + p;
    assert forall i | 0 < i < |q| :: q[i] == p[i - 1];
    assert Path(imports, q) && q[0] == f && q[|q| - 1] == g;
  }

  /** A set of files that has all imports of its members has everything they reach. */
  lemma {:induction false} ClosedSetHasPath(imports: Imports, files: set<Name>, p: seq<Name>)
    requires Path(imports, p) && p[0] in files
    requires forall f, d | f in files && f in imports && d in imports[f] :: d in files
    ensures p[|p| - 1] in files
    decreases |p|
  {
    if |p| > 1 {
      assert p[1] in imports[p[0]];
      assert Path(imports, p[1..]);
      ClosedSetHasPath(imports, files, p[1..]);
    }
  }

  lemma ClosedSetHasAll(imports: Imports, files: set<Name>, f: Name, g: Name)
    requires f in files && Reaches(imports, f, g)
    requires forall f, d | f in files && f in imports && d in imports[f] :: d in files
    ensures g in files
  {
    var p :| Path(imports, p) && p[0] == f && p[|p| - 1] == g;
    ClosedSetHasPath(imports, files, p);
  }

  /** Each file comes after all of its own imports. */
  ghost predicate ImportsFirst(imports: Imports, ordered: seq<Name>) {
    forall i, d | 0 <= i < |ordered| && ordered[i] in imports && d in imports[ordered[i]] :: d in ordered[..i]
  }

  predicate Distinct(s: seq<Name>) {
    forall i, j | 0 <= i < j < |s| :: s[i] != s[j]
  }

  class ReflectionIndex {
    const imports: Imports
    var files: set<Name>

    /** The index of the files the services are declared in. */
    constructor (imports: Imports, services: seq<Name>)
      requires Closed(imports) && forall f | f in services :: f in imports
      ensures this.imports == imports
      ensures forall g :: g in files <==> exists f | f in services :: Reaches(imports, f, g)
    {
      this.imports := imports;
      files := {};
      new;
      for n := 0 to |services|
        invariant files <= imports.Keys
        invariant forall f, d | f in files && d in imports[f] :: d in files
        invariant forall f | f in services[..n] :: f in files
        invariant forall g | g in files :: exists f | f in services :: Reaches(imports, f, g)
      {
        AddFile(services[n]);
        assert services[..n + 1] == services[..n] + [services[n]];
      }
      forall g, f | f in services && Reaches(imports, f, g)
        ensures g in files
      {
        assert f in services[..|services|];
        ClosedSetHasAll(imports, files, f, g);
      }
    }

    /** Adds a file and, transitively, its imports. */
    method AddFile(f: Name)
      requires Closed(imports) && f in imports && files <= imports.Keys
      modifies this
      ensures old(files) <= files <= imports.Keys && f in files
      ensures forall g, d | g in files && g !in old(files) && d in imports[g] :: d in files
      ensures forall g | g in files && g !in old(files) :: Reaches(imports, f, g)
      decreases imports.Keys - files
    {
      if f in files {
        return;
      }
      files := files + {f};
      ReachesItself(imports, f);
      for n := 0 to |imports[f]|
        invariant old(files) + {f} <= files <= imports.Keys
        invariant forall d | d in imports[f][..n] :: d in files
        invariant forall g, d | g in files && g !in old(files) && g != f && d in imports[g] :: d in files
        invariant forall g | g in files && g !in old(files) :: Reaches(imports, f, g)
      {
        var d := imports[f][n];
        ghost var before := files;
        AddFile(d);
        forall g | g in files && g !in before
          ensures Reaches(imports, f, g)
        {
          ReachesThrough(imports, f, d, g);
        }
        assert imports[f][..n + 1] == imports[f][..n] + [d];
      }
      assert imports[f][..|imports[f]|] == imports[f];
    }

    /** The answer to fileByFilename. */
    method FileByFilename(f: Name) returns (response: Option<seq<Name>>)
      requires Closed(imports) && Acyclic(imports) && files <= imports.Keys
      ensures response.Some? <==> f in files
      ensures response.Some? ==> IsResponse(imports, f, response.value)
    {
      if f !in files {
        return None;
      }
      var walk := new Walk(imports);
      var ordered := walk.FileResponse(f);
      response := Some(ordered);
    }
  }

  /** The file first, then each transitive import once, after all of its own imports. */
  ghost predicate IsResponse(imports: Imports, f: Name, response: seq<Name>) {
    && |response| > 0 && response[0] == f
    && Distinct(response)
    && (forall g :: g in response <==> Reaches(imports, f, g))
    && ImportsFirst(imports, response[1..])
  }

  /** The depth-first walk of fileResponse, with the two collections it fills. */
  class Walk {
    const imports: Imports
    var ordered: seq<Name>
    var seen: set<Name>

    constructor (imports: Imports)
      ensures this.imports == imports && ordered == [] && seen == {}
    {
      this.imports := imports;
      ordered, seen := [], {};
    }

    /** `path` are the files whose imports are being visited; everything else seen is ordered. */
    ghost predicate Valid(path: set<Name>)
      reads this
    {
      && seen <= imports.Keys && path <= seen
      && (forall g :: g in ordered <==> g in seen && g !in path)
      && Distinct(ordered)
      && ImportsFirst(imports, ordered)
    }

    method Visit(f: Name, ghost path: set<Name>)
      requires Closed(imports) && Acyclic(imports) && f in imports && Valid(path)
      requires forall s | s in path :: Reaches(imports, s, f)
      modifies this
      ensures Valid(path) && old(seen) <= seen && old(ordered) <= ordered
      ensures f in seen
      ensures forall g | g in seen && g !in old(seen) :: Reaches(imports, f, g)
      ensures f !in old(seen) ==> |ordered| > 0 && ordered[|ordered| - 1] == f
      decreases imports.Keys - seen, 0
    {
      if f in seen {
        return;
      }
      seen := seen + {f};
      ghost var inner := path + {f};
      ReachesItself(imports, f);
      for n := 0 to |imports[f]|
        invariant Valid(inner) && old(seen) + {f} <= seen && old(ordered) <= ordered
        invariant forall d | d in imports[f][..n] :: d in ordered
        invariant forall g | g in seen && g !in old(seen) :: Reaches(imports, f, g)
      {
        VisitImport(f, n, inner);
        assert imports[f][..n + 1] == imports[f][..n] + [imports[f][n]];
      }
      assert imports[f][..|imports[f]|] == imports[f];
      AppendKeepsOrder(imports, ordered, f);
      ordered := ordered + [f];
    }

    /** One import of `f`: no file on the path can be it, since that would close a cycle. */
    method VisitImport(f: Name, n: nat, ghost path: set<Name>)
      requires Closed(imports) && Acyclic(imports) && f in imports && n < |imports[f]| && Valid(path) && f in path
      requires forall s | s in path :: Reaches(imports, s, f)
      modifies this
      ensures Valid(path) && old(seen) <= seen && old(ordered) <= ordered
      ensures imports[f][n] in ordered
      ensures forall g | g in seen && g !in old(seen) :: Reaches(imports, f, g)
      decreases imports.Keys - seen, 1
    {
      var d := imports[f][n];
      assert d in imports[f];
      forall s | s in path
        ensures Reaches(imports, s, d)
      {
        ReachesImport(imports, s, f, d);
      }
      assert d !in path;
      Visit(d, path);
      forall g | g in seen && g !in old(seen)
        ensures Reaches(imports, f, g)
      {
        ReachesThrough(imports, f, d, g);
      }
    }

    /** The file plus everything it imports, dependencies first, the file itself moved to the front. */
    method FileResponse(f: Name) returns (response: seq<Name>)
      requires Closed(imports) && Acyclic(imports) && f in imports && ordered == [] && seen == {}
      modifies this
      ensures IsResponse(imports, f, response)
    {
      Visit(f, {});
      var last := |ordered| - 1;
      response := [ordered[last]] + ordered[..last];
      assert response[1..] == ordered[..last];
      RestOrdered(imports, ordered);
      AllReached(imports, f, ordered, seen);
    }
  }

  lemma AppendKeepsOrder(imports: Imports, ordered: seq<Name>, f: Name)
    requires ImportsFirst(imports, ordered) && f in imports && forall d | d in imports[f] :: d in ordered
    ensures ImportsFirst(imports, ordered + [f])
  {
    var longer := ordered + [f];
    forall i, d | 0 <= i < |longer| && longer[i] in imports && d in imports[longer[i]]
      ensures d in longer[..i]
    {
      if i < |ordered| {
        assert longer[..i] == ordered[..i];
      } else {
        assert longer[..i] == ordered;
      }
    }
  }

  lemma RestOrdered(imports: Imports, ordered: seq<Name>)
    requires |ordered| > 0 && ImportsFirst(imports, ordered)
    ensures ImportsFirst(imports, ordered[..|ordered| - 1])
  {
    var rest := ordered[..|ordered| - 1];
    forall i, d | 0 <= i < |rest| && rest[i] in imports && d in imports[rest[i]]
      ensures d in rest[..i]
    {
      assert rest[i] == ordered[i] && rest[..i] == ordered[..i];
    }
  }

  lemma AllReached(imports: Imports, f: Name, ordered: seq<Name>, seen: set<Name>)
    requires f in seen && ImportsFirst(imports, ordered) && forall g :: g in ordered <==> g in seen
    requires forall g | g in seen :: Reaches(imports, f, g)
    ensures forall g :: g in seen <==> Reaches(imports, f, g)
  {
    forall g, d | g in seen && g in imports && d in imports[g]
      ensures d in seen
    {
      var i :| 0 <= i < |ordered| && ordered[i] == g;
      assert d in ordered[..i];
    }
    forall g | Reaches(imports, f, g)
      ensures g in seen
    {
      ClosedSetHasAll(imports, seen, f, g);
    }
  }
}
