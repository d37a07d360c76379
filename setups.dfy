/** Creation descriptors, one kind per resource type, and the dependency list
    a program bundle is registered with. */
module Setups {
  import opened Handles

  /** One program of a program bundle: its vertex and fragment shader ids
      (either may be the invalid id). */
  datatype ProgramEntry = ProgramEntry(vertexShader: Id, fragmentShader: Id)

  /** A creation descriptor. Only what the manager reads is kept: the
      locator, and for a program bundle its programs. */
  datatype ResourceSetup =
    | MeshSetup(loc: Locator)
    | TextureSetup(loc: Locator)
    | ShaderSetup(loc: Locator)
    | ProgramBundleSetup(loc: Locator, programs: seq<ProgramEntry>)
    | StateBlockSetup(loc: Locator)
    | DepthStencilStateSetup(loc: Locator)
    | BlendStateSetup(loc: Locator)
  {
    /** The resource type a descriptor of this kind creates. */
    function Type(): (t: ResourceType)
      ensures Pooled(t)
      ensures t == ProgramBundle <==> ProgramBundleSetup?
    {
      match this
      case MeshSetup(_) => Mesh
      case TextureSetup(_) => Texture
      case ShaderSetup(_) => Shader
      case ProgramBundleSetup(_, _) => ProgramBundle
      case StateBlockSetup(_) => StateBlock
      case DepthStencilStateSetup(_) => DepthStencilState
      case BlendStateSetup(_) => BlendState
    }
  }

  /** The valid shader ids of one program, vertex shader first. */
  function ValidStages(p: ProgramEntry): seq<Id>
  {
    (if p.vertexShader.IsValid() then [p.vertexShader] else []) +
    (if p.fragmentShader.IsValid() then [p.fragmentShader] else [])
  }

  /** The dependency list of a program bundle: the valid stages of each
      program, program after program. */
  function ShaderDeps(programs: seq<ProgramEntry>): seq<Id>
  {
    if programs == [] then []
    else ShaderDeps(programs[..|programs| - 1]) + ValidStages(programs[|programs| - 1])
  }

  /** The dependencies the manager registers a new resource with: the shader
      ids for a program bundle, none for every other kind. */
  function SetupDeps(setup: ResourceSetup): seq<Id>
  {
    if setup.ProgramBundleSetup? then ShaderDeps(setup.programs) else []
  }

  /** Builds the dependency list the way the manager does: one pass over the
      programs, appending each valid vertex shader and then each valid
      fragment shader. */
  method CollectShaderDeps(programs: seq<ProgramEntry>) returns (deps: seq<Id>)
    ensures deps == ShaderDeps(programs)
  {
    deps := [];
    var i := 0;
    while i < |programs|
      invariant 0 <= i <= |programs|
      invariant deps == ShaderDeps(programs[..i])
    {
      assert programs[..i + 1][..i] == programs[..i];
      if programs[i].vertexShader.IsValid() {
        deps := deps + [programs[i].vertexShader];
      }
      if programs[i].fragmentShader.IsValid() {
        deps := deps + [programs[i].fragmentShader];
      }
      i := i + 1;
    }
    assert programs[..|programs|] == programs;
  }

  /** The dependency list of programs `a` followed by programs `b` is that of
      `a` followed by that of `b`: program order is kept. */
  lemma {:induction false} ShaderDepsAppend(a: seq<ProgramEntry>, b: seq<ProgramEntry>)
    ensures ShaderDeps(a + b) == ShaderDeps(a) + ShaderDeps(b)
    decreases |b|
  {
    if b == [] {
      assert a + b == a;
    } else {
      var b' := b[..|b| - 1];
      assert (a + b)[..|a + b| - 1] == a + b';
      assert (a + b)[|a + b| - 1] == b[|b| - 1];
      ShaderDepsAppend(a, b');
    }
  }

  /** At most two dependencies per program, and exactly two per program
      exactly when every shader id is valid. */
  lemma {:induction false} ShaderDepsLength(programs: seq<ProgramEntry>)
    ensures |ShaderDeps(programs)| <= 2 * |programs|
    ensures |ShaderDeps(programs)| == 2 * |programs| <==>
      forall i :: 0 <= i < |programs| ==>
        programs[i].vertexShader.IsValid() && programs[i].fragmentShader.IsValid()
  {
    if programs != [] {
      var init := programs[..|programs| - 1];
      ShaderDepsLength(init);
      assert forall i :: 0 <= i < |init| ==> init[i] == programs[i];
    }
  }

  /** An id is a dependency exactly when it is valid and is the vertex or
      fragment shader of some program. */
  lemma {:induction false} ShaderDepsMembers(programs: seq<ProgramEntry>, x: Id)
    ensures x in ShaderDeps(programs) <==>
      x.IsValid() &&
      exists i :: 0 <= i < |programs| && (programs[i].vertexShader == x || programs[i].fragmentShader == x)
  {
    if programs != [] {
      var init := programs[..|programs| - 1];
      ShaderDepsMembers(init, x);
      assert forall i :: 0 <= i < |init| ==> init[i] == programs[i];
      if x.IsValid() && exists i :: 0 <= i < |programs| && (programs[i].vertexShader == x || programs[i].fragmentShader == x) {
        var i :| 0 <= i < |programs| && (programs[i].vertexShader == x || programs[i].fragmentShader == x);
        if i < |init| {
          assert init[i] == programs[i];
        }
      }
    }
  }
}
