/**
 * The bookkeeping of GLShader: source files are sorted into vertex,
 * fragment and geometry lists by their last four characters, compiling
 * gives the program an id only when every source compiles, and texture
 * uniforms get texture slots handed out in order of first use since the
 * last bind.
 *
 * The file system and the GL driver are parameters: `opens` says whether a
 * path can be opened, `compiles` whether a source file yields a shader, and
 * `programId` is the id the driver gives a linked program.
 */
module Shader {
  import opened Wrappers

  datatype Kind = Vertex | Fragment | Geometry

  /** The file ending that selects each kind. */
  function Ext(k: Kind): string
  {
    match k
    case Vertex => "vert"
    case Fragment => "frag"
    case Geometry => "geom"
  }

  /**
   * The kind a path's last four characters select, tried in the order
   * vert, frag, geom; None for any other ending and for paths shorter than
   * four characters.
   */
  function KindOf(path: string): Option<Kind>
  {
    if |path| < 4 then None
    else
      var suffix := path[|path| - 4..];
      if suffix == "vert" then Some(Vertex)
      else if suffix == "frag" then Some(Fragment)
      else if suffix == "geom" then Some(Geometry)
      else None
  }

  /** A path ending in a kind's extension is of that kind, whatever comes before it. */
  lemma KindOfExt(stem: string, k: Kind)
    ensures KindOf(stem + Ext(k)) == Some(k)
  {
    var p := stem + Ext(k);
    assert p[|p| - 4..] == Ext(k);
  }

  /** A path of some kind is its stem followed by that kind's extension. */
  lemma KindOfSplits(path: string)
    requires KindOf(path).Some?
    ensures |path| >= 4 && path == path[..|path| - 4] + Ext(KindOf(path).value)
  {
    assert path == path[..|path| - 4] + path[|path| - 4..];
  }

  /** The paths among `paths` that add_source accepts as kind k, in order. */
  function OfKind(paths: seq<string>, opens: string -> bool, k: Kind): (r: seq<string>)
    ensures |r| <= |paths|
    ensures forall p :: p in r ==> p in paths && opens(p) && KindOf(p) == Some(k)
  {
    if |paths| == 0 then []
    else
      var rest := OfKind(paths[..|paths| - 1], opens, k);
      var p := paths[|paths| - 1];
      if opens(p) && KindOf(p) == Some(k) then rest + [p] else rest
  }

  /** Adding one more path adds it to the list of its kind only. */
  lemma OfKindStep(paths: seq<string>, i: nat, opens: string -> bool, k: Kind)
    requires i < |paths|
    ensures OfKind(paths[..i + 1], opens, k)
            == OfKind(paths[..i], opens, k) + (if opens(paths[i]) && KindOf(paths[i]) == Some(k) then [paths[i]] else [])
  {
    assert paths[..i + 1][..i] == paths[..i];
  }

  /**
   * _compile_single: every path yields a shader. The source stops at the
   * first path that fails.
   */
  method CompileSingle(paths: seq<string>, compiles: string -> bool) returns (ok: bool)
    ensures ok <==> forall i :: 0 <= i < |paths| ==> compiles(paths[i])
  {
    var i := 0;
    while i < |paths|
      invariant 0 <= i <= |paths|
      invariant forall j :: 0 <= j < i ==> compiles(paths[j])
    {
      if !compiles(paths[i]) {
        return false;
      }
      i := i + 1;
    }
    return true;
  }

  /** Every path in the list compiles. */
  predicate AllCompile(paths: seq<string>, compiles: string -> bool)
  {
    forall p :: p in paths ==> compiles(p)
  }

  class GLShader {
    var id: nat
    var vertexPaths: seq<string>
    var geometryPaths: seq<string>
    var fragmentPaths: seq<string>
    var nameToSlot: map<string, int>
    var textureSlot: int
    const maxSlots: int

    /**
     * The texture slots handed out since the last bind are exactly
     * 0 .. textureSlot-1, one per name.
     */
    ghost predicate Valid()
      reads this
    {
      && (forall n :: n in nameToSlot ==> 0 <= nameToSlot[n] < textureSlot)
      && (forall a, b :: a in nameToSlot && b in nameToSlot && a != b ==> nameToSlot[a] != nameToSlot[b])
      && |nameToSlot.Keys| == textureSlot
    }

    /** An empty shader: no sources, no program, no slots. */
    constructor (maxSlots: int)
      ensures id == 0 && vertexPaths == [] && geometryPaths == [] && fragmentPaths == []
      ensures nameToSlot == map[] && textureSlot == 0 && this.maxSlots == maxSlots
      ensures Valid()
    {
      id := 0;
      vertexPaths, geometryPaths, fragmentPaths := [], [], [];
      nameToSlot := map[];
      textureSlot := 0;
      this.maxSlots := maxSlots;
    }

    /**
     * GLShader(paths): adds every path in order, then compiles. Each list
     * holds the accepted paths of its kind in the order given.
     */
    constructor FromPaths(paths: seq<string>, opens: string -> bool, compiles: string -> bool,
                          programId: nat, maxSlots: int)
      ensures vertexPaths == OfKind(paths, opens, Vertex)
      ensures fragmentPaths == OfKind(paths, opens, Fragment)
      ensures geometryPaths == OfKind(paths, opens, Geometry)
      ensures id == if AllCompile(vertexPaths + geometryPaths + fragmentPaths, compiles) then programId else 0
      ensures nameToSlot == map[] && textureSlot == 0 && Valid()
    {
      id := 0;
      vertexPaths, geometryPaths, fragmentPaths := [], [], [];
      nameToSlot := map[];
      textureSlot := 0;
      this.maxSlots := maxSlots;
      new;
      AddSources(paths, opens);
      var _ := Compile(compiles, programId);
    }

    /** The constructor's loop: add_source for every path, in order, to empty lists. */
    method AddSources(paths: seq<string>, opens: string -> bool)
      requires vertexPaths == [] && fragmentPaths == [] && geometryPaths == []
      modifies this`vertexPaths, this`fragmentPaths, this`geometryPaths
      ensures vertexPaths == OfKind(paths, opens, Vertex)
      ensures fragmentPaths == OfKind(paths, opens, Fragment)
      ensures geometryPaths == OfKind(paths, opens, Geometry)
    {
      for i := 0 to |paths|
        invariant vertexPaths == OfKind(paths[..i], opens, Vertex)
        invariant fragmentPaths == OfKind(paths[..i], opens, Fragment)
        invariant geometryPaths == OfKind(paths[..i], opens, Geometry)
      {
        OfKindStep(paths, i, opens, Vertex);
        OfKindStep(paths, i, opens, Fragment);
        OfKindStep(paths, i, opens, Geometry);
        var _ := AddSource(paths[i], opens(paths[i]));
      }
      assert paths[..|paths|] == paths;
    }

    /**
     * add_source: a path that opens and ends in vert, frag or geom is
     * appended to the list of that kind and the call succeeds; otherwise
     * nothing changes and the call fails.
     */
    method AddSource(path: string, opens: bool) returns (ok: bool)
      modifies this`vertexPaths, this`fragmentPaths, this`geometryPaths
      ensures ok <==> opens && KindOf(path).Some?
      ensures vertexPaths == old(vertexPaths) + (if ok && KindOf(path) == Some(Vertex) then [path] else [])
      ensures fragmentPaths == old(fragmentPaths) + (if ok && KindOf(path) == Some(Fragment) then [path] else [])
      ensures geometryPaths == old(geometryPaths) + (if ok && KindOf(path) == Some(Geometry) then [path] else [])
      ensures |vertexPaths| + |fragmentPaths| + |geometryPaths|
           == old(|vertexPaths| + |fragmentPaths| + |geometryPaths|) + (if ok then 1 else 0)
    {
      if !opens {
        return false;
      }
      var kind := KindOf(path);
      if kind == Some(Vertex) {
        vertexPaths := vertexPaths + [path];
      } else if kind == Some(Fragment) {
        fragmentPaths := fragmentPaths + [path];
      } else if kind == Some(Geometry) {
        geometryPaths := geometryPaths + [path];
      } else {
        return false;
      }
      return true;
    }

    /**
     * compile: compiles the vertex, geometry and fragment sources in that
     * order; only when all of them compile does the program get its id.
     * The call reports failure on every path, success included.
     */
    method Compile(compiles: string -> bool, programId: nat) returns (ok: bool)
      modifies this`id
      ensures !ok
      ensures id == if AllCompile(vertexPaths + geometryPaths + fragmentPaths, compiles) then programId else old(id)
    {
      var all := vertexPaths + geometryPaths + fragmentPaths;
      var v := CompileSingle(vertexPaths, compiles);
      if !v {
        assert !AllCompile(all, compiles) by { Witness(vertexPaths, all, compiles, 0); }
        return false;
      }
      var g := CompileSingle(geometryPaths, compiles);
      if !g {
        assert !AllCompile(all, compiles) by { Witness(geometryPaths, all, compiles, |vertexPaths|); }
        return false;
      }
      var f := CompileSingle(fragmentPaths, compiles);
      if !f {
        assert !AllCompile(all, compiles) by { Witness(fragmentPaths, all, compiles, |vertexPaths| + |geometryPaths|); }
        return false;
      }
      id := programId;
      return false;
    }

    /** bind: forgets every texture slot. */
    method Bind()
      modifies this`nameToSlot, this`textureSlot
      ensures nameToSlot == map[] && textureSlot == 0
      ensures Valid()
    {
      nameToSlot := map[];
      textureSlot := 0;
    }

    /**
     * set_uniform(name, texture): a name seen since the last bind keeps its
     * slot; a new name gets the next slot, which is recorded even when it
     * exceeds maxSlots and the call fails.
     */
    method SetTextureUniform(name: string) returns (r: Result<int, string>)
      requires Valid()
      modifies this`nameToSlot, this`textureSlot
      ensures Valid()
      ensures name in old(nameToSlot) ==>
        r == Success(old(nameToSlot)[name]) && nameToSlot == old(nameToSlot) && textureSlot == old(textureSlot)
      ensures name !in old(nameToSlot) ==>
        && nameToSlot == old(nameToSlot)[name := old(textureSlot)]
        && textureSlot == old(textureSlot) + 1
        && (r.Success? <==> old(textureSlot) <= maxSlots)
        && (r.Success? ==> r.value == old(textureSlot))
      ensures r.Success? ==> forall n :: n in nameToSlot && n != name ==> nameToSlot[n] != r.value
    {
      if name in nameToSlot {
        return Success(nameToSlot[name]);
      }
      var slot := textureSlot;
      textureSlot := textureSlot + 1;
      assert (nameToSlot[name := slot]).Keys == nameToSlot.Keys + {name};
      nameToSlot := nameToSlot[name := slot];
      if slot > maxSlots {
        return Failure("No more texture slots available!");
      }
      return Success(slot);
    }
  }

  /** A path at position `offset` of `all` that does not compile breaks AllCompile. */
  lemma Witness(part: seq<string>, all: seq<string>, compiles: string -> bool, offset: nat)
    requires offset + |part| <= |all| && all[offset..offset + |part|] == part
    requires !(forall i :: 0 <= i < |part| ==> compiles(part[i]))
    ensures !AllCompile(all, compiles)
  {
    var i :| 0 <= i < |part| && !compiles(part[i]);
    assert all[offset + i] == part[i];
  }
}
