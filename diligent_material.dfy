/**
 * The material and texture rules of the Diligent renderer
 * (src/renderer/diligent/renderer.cpp): translating the engine's cull
 * modes, texture dimensions and pixel formats into Diligent's, checking a
 * material's properties against its shader's resources, laying out the
 * material's constants buffer, and choosing the value each parameter gets
 * when a material is applied.
 */
module DiligentMaterial {
  import opened Errors
  import opened Vectors
  import opened Matrices
  import opened Textures

  // ----- enumeration translations

  /** `MaterialDesc::CullMode`. */
  datatype CullMode = CullNone | CullBack | CullFront

  /** Diligent's `CULL_MODE`. */
  datatype DlCullMode = CULL_MODE_NONE | CULL_MODE_FRONT | CULL_MODE_BACK

  /** Diligent's `RESOURCE_DIMENSION` for textures. */
  datatype ResourceDimension =
    RESOURCE_DIM_TEX_1D | RESOURCE_DIM_TEX_1D_ARRAY | RESOURCE_DIM_TEX_2D | RESOURCE_DIM_TEX_2D_ARRAY |
    RESOURCE_DIM_TEX_3D | RESOURCE_DIM_TEX_CUBE | RESOURCE_DIM_TEX_CUBE_ARRAY

  /** Diligent's `TEXTURE_FORMAT`, for the formats the engine uses. */
  datatype DlTextureFormat =
    TEX_FORMAT_RGBA8_UNORM_SRGB | TEX_FORMAT_BGRA8_UNORM_SRGB |
    TEX_FORMAT_BC1_UNORM_SRGB | TEX_FORMAT_BC2_UNORM_SRGB | TEX_FORMAT_BC3_UNORM_SRGB

  /** `to_cull_mode`: none, back and front map to their Diligent namesakes. */
  function ToCullMode(c: CullMode): (r: DlCullMode)
    ensures r == CULL_MODE_NONE <==> c == CullNone
    ensures r == CULL_MODE_BACK <==> c == CullBack
    ensures r == CULL_MODE_FRONT <==> c == CullFront
  {
    match c
    case CullNone => CULL_MODE_NONE
    case CullBack => CULL_MODE_BACK
    case CullFront => CULL_MODE_FRONT
  }

  /** Whether a resource dimension is one of the array variants. */
  predicate IsArrayDimension(r: ResourceDimension)
  {
    r in {RESOURCE_DIM_TEX_1D_ARRAY, RESOURCE_DIM_TEX_2D_ARRAY, RESOURCE_DIM_TEX_CUBE_ARRAY}
  }

  /** The texture dimension a resource dimension describes, array or not. */
  function BaseDimension(r: ResourceDimension): TextureDimension
  {
    match r
    case RESOURCE_DIM_TEX_1D | RESOURCE_DIM_TEX_1D_ARRAY => Texture1D
    case RESOURCE_DIM_TEX_2D | RESOURCE_DIM_TEX_2D_ARRAY => Texture2D
    case RESOURCE_DIM_TEX_3D => Texture3D
    case RESOURCE_DIM_TEX_CUBE | RESOURCE_DIM_TEX_CUBE_ARRAY => TextureCubemap
  }

  /**
   * `to_resource_dimension`: the resource dimension of the same texture
   * dimension, the array variant exactly when an array is asked for and the
   * dimension is not 3D (3D textures cannot be arrays; that test is
   * a debug assertion only, so an array request for 3D yields plain 3D).
   */
  function ToResourceDimension(dim: TextureDimension, isArray: bool): (r: ResourceDimension)
    ensures BaseDimension(r) == dim
    ensures IsArrayDimension(r) <==> isArray && dim != Texture3D
  {
    match dim
    case Texture1D => if isArray then RESOURCE_DIM_TEX_1D_ARRAY else RESOURCE_DIM_TEX_1D
    case Texture2D => if isArray then RESOURCE_DIM_TEX_2D_ARRAY else RESOURCE_DIM_TEX_2D
    case Texture3D => RESOURCE_DIM_TEX_3D
    case TextureCubemap => if isArray then RESOURCE_DIM_TEX_CUBE_ARRAY else RESOURCE_DIM_TEX_CUBE
  }

  /** `to_texture_format`: each pixel format maps to its Diligent namesake. */
  function ToTextureFormat(f: PixelFormat): (r: DlTextureFormat)
    ensures r == TEX_FORMAT_RGBA8_UNORM_SRGB <==> f == R8G8B8A8Srgb
    ensures r == TEX_FORMAT_BGRA8_UNORM_SRGB <==> f == B8G8R8A8Srgb
    ensures r == TEX_FORMAT_BC1_UNORM_SRGB <==> f == Bc1Srgb
    ensures r == TEX_FORMAT_BC2_UNORM_SRGB <==> f == Bc2Srgb
    ensures r == TEX_FORMAT_BC3_UNORM_SRGB <==> f == Bc3Srgb
  {
    match f
    case R8G8B8A8Srgb => TEX_FORMAT_RGBA8_UNORM_SRGB
    case B8G8R8A8Srgb => TEX_FORMAT_BGRA8_UNORM_SRGB
    case Bc1Srgb => TEX_FORMAT_BC1_UNORM_SRGB
    case Bc2Srgb => TEX_FORMAT_BC2_UNORM_SRGB
    case Bc3Srgb => TEX_FORMAT_BC3_UNORM_SRGB
  }

  /** The resource dimension `create_texture` asks for: an array when the description's array size is positive. */
  function CreateTextureDimension(desc: TextureDesc): ResourceDimension
  {
    ToResourceDimension(desc.dimension, desc.ArraySize() > 0)
  }

  // ----- material properties and shader resources

  /** Diligent's `SHADER_RESOURCE_TYPE`. */
  datatype ShaderResourceType =
    SHADER_RESOURCE_TYPE_CONSTANT_BUFFER | SHADER_RESOURCE_TYPE_TEXTURE_SRV | SHADER_RESOURCE_TYPE_BUFFER_SRV |
    SHADER_RESOURCE_TYPE_TEXTURE_UAV | SHADER_RESOURCE_TYPE_BUFFER_UAV | SHADER_RESOURCE_TYPE_SAMPLER |
    SHADER_RESOURCE_TYPE_INPUT_ATTACHMENT | SHADER_RESOURCE_TYPE_ACCEL_STRUCT

  /** A shader resource, as `GetResourceDesc` describes it. */
  datatype ResourceDesc = ResourceDesc(name: string, resourceType: ShaderResourceType)

  /**
   * `MaterialDesc::PropertyValue`: a 32-bit integer, a float, a 2-, 3- or
   * 4-vector, a matrix, or a texture (a null texture pointer is `None`).
   */
  datatype PropertyValue =
    Int32Value(i: int) | FloatValue(f: real) | Vector2Value(v2: Vector2<real>) |
    Vector3Value(v3: Vector3<real>) | Vector4Value(v4: Vector4<real>) | MatrixValue(m: Matrix) |
    TextureValue(texture: Option<nat>)

  /** `MaterialDesc::Property`: a name and the default value, whose kind is the property's type. */
  datatype Property = Property(name: string, defaultValue: PropertyValue)

  /** The shader variables the renderer binds itself, with the type each must have. */
  const PREDEFINED: map<string, ShaderResourceType> := map[
    "InstanceConstants" := SHADER_RESOURCE_TYPE_CONSTANT_BUFFER,
    "ViewConstants" := SHADER_RESOURCE_TYPE_CONSTANT_BUFFER,
    "LinearSampler" := SHADER_RESOURCE_TYPE_SAMPLER,
    "LinearClampSampler" := SHADER_RESOURCE_TYPE_SAMPLER,
    "Material" := SHADER_RESOURCE_TYPE_CONSTANT_BUFFER]

  /** Some resource has a predefined name but not the predefined type. */
  ghost predicate Clash(resources: seq<ResourceDesc>)
  {
    exists i :: 0 <= i < |resources| && resources[i].name in PREDEFINED &&
      PREDEFINED[resources[i].name] != resources[i].resourceType
  }

  /**
   * The top-level shader variables the material must match: every resource
   * without a predefined name, with the type of its last occurrence.
   */
  function ShaderVariables(resources: seq<ResourceDesc>): map<string, ShaderResourceType>
  {
    if resources == [] then map[]
    else
      var vars, last := ShaderVariables(resources[..|resources| - 1]), resources[|resources| - 1];
      if last.name in PREDEFINED then vars else vars[last.name := last.resourceType]
  }

  /** The names of the texture properties, in declaration order. */
  function TextureNames(props: seq<Property>): seq<string>
  {
    if props == [] then []
    else
      var last := props[|props| - 1];
      TextureNames(props[..|props| - 1]) + (if last.defaultValue.TextureValue? then [last.name] else [])
  }

  /** What matching one property does to the variables still unmatched and the dynamic names so far. */
  function MatchStep(left: map<string, ShaderResourceType>, names: seq<string>, p: Property)
    : Result<(map<string, ShaderResourceType>, seq<string>)>
  {
    if !p.defaultValue.TextureValue? then Ok((left, names))
    else if p.name in PREDEFINED then Err(ArgumentError)
    else if p.name !in left then Err(ArgumentError)
    else if left[p.name] != SHADER_RESOURCE_TYPE_TEXTURE_SRV then Err(ArgumentError)
    else Ok((left - {p.name}, names + [p.name]))
  }

  /** Matching the properties in order against the shader variables. */
  function MatchProperties(vars: map<string, ShaderResourceType>, props: seq<Property>)
    : Result<(map<string, ShaderResourceType>, seq<string>)>
  {
    if props == [] then Ok((vars, []))
    else
      match MatchProperties(vars, props[..|props| - 1])
      case Err(_) => Err(ArgumentError)
      case Ok(state) => MatchStep(state.0, state.1, props[|props| - 1])
  }

  /**
   * What `determine_dynamic_material_variables` yields for a shader's
   * vertex and pixel resources and a material's properties.
   */
  ghost function DynamicVariables(vertex: seq<ResourceDesc>, pixel: seq<ResourceDesc>, props: seq<Property>)
    : Result<seq<string>>
  {
    if Clash(vertex + pixel) then Err(ArgumentError)
    else
      match MatchProperties(ShaderVariables(vertex + pixel), props)
      case Err(_) => Err(ArgumentError)
      case Ok(state) => if state.0 != map[] then Err(ArgumentError) else Ok(state.1 + ["Material"])
  }

  /** A texture property name the shader variables admit: not predefined, and a texture SRV of the shader. */
  predicate Admissible(vars: map<string, ShaderResourceType>, name: string)
  {
    name !in PREDEFINED && name in vars && vars[name] == SHADER_RESOURCE_TYPE_TEXTURE_SRV
  }

  /** The names occurring in a list. */
  function NameSet(names: seq<string>): set<string>
  {
    set n | n in names
  }

  predicate Distinct(names: seq<string>)
  {
    forall k, l :: 0 <= k < l < |names| ==> names[k] != names[l]
  }

  /**
   * `determine_dynamic_material_variables`: collects the non-predefined
   * resources of both shaders, rejecting a predefined name of the wrong
   * type; then matches each texture property with one of them, rejecting
   * predefined names, missing and non-texture variables; then rejects any
   * variable left unmatched. The result is the texture property names
   * followed by "Material".
   */
  method DetermineDynamicVariables(vertex: seq<ResourceDesc>, pixel: seq<ResourceDesc>, props: seq<Property>)
    returns (r: Result<seq<string>>)
    ensures r == DynamicVariables(vertex, pixel, props)
  {
    var collected := CollectShaderVariables(vertex + pixel);
    if collected.Err? {
      return Err(ArgumentError);
    }
    var shaderVariables := collected.value;
    var matched := MatchTextureProperties(shaderVariables, props);
    if matched.Err? {
      return Err(ArgumentError);
    }
    var dynamicVariables := matched.value.1 + ["Material"];
    if matched.value.0 != map[] {
      return Err(ArgumentError);
    }
    r := Ok(dynamicVariables);
  }

  /**
   * The first loop of `determine_dynamic_material_variables`: the
   * non-predefined resources of both shaders, or an argument error at the
   * first predefined name of the wrong type.
   */
  method CollectShaderVariables(resources: seq<ResourceDesc>) returns (r: Result<map<string, ShaderResourceType>>)
    ensures r.Err? <==> Clash(resources)
    ensures r.Err? ==> r.error == ArgumentError
    ensures r.Ok? ==> r.value == ShaderVariables(resources)
  {
    var shaderVariables: map<string, ShaderResourceType> := map[];
    for i := 0 to |resources|
      invariant !Clash(resources[..i])
      invariant shaderVariables == ShaderVariables(resources[..i])
    {
      assert resources[..i + 1][..i] == resources[..i];
      var desc := resources[i];
      if desc.name !in PREDEFINED {
        shaderVariables := shaderVariables[desc.name := desc.resourceType];
      } else if PREDEFINED[desc.name] != desc.resourceType {
        ClashAt(resources, i);
        return Err(ArgumentError);
      }
      ClashStep(resources, i);
    }
    assert resources[..|resources|] == resources;
    r := Ok(shaderVariables);
  }

  /**
   * The second loop of `determine_dynamic_material_variables`: matches each
   * texture property against the shader variables, removing the variable
   * it matches and recording its name.
   */
  method MatchTextureProperties(vars: map<string, ShaderResourceType>, props: seq<Property>)
    returns (r: Result<(map<string, ShaderResourceType>, seq<string>)>)
    ensures r == MatchProperties(vars, props)
  {
    var shaderVariables := vars;
    var dynamicVariables: seq<string> := [];
    for i := 0 to |props|
      invariant MatchProperties(vars, props[..i]) == Ok((shaderVariables, dynamicVariables))
    {
      assert props[..i + 1][..i] == props[..i];
      var p := props[i];
      if !p.defaultValue.TextureValue? {
        continue;
      }
      if p.name in PREDEFINED || p.name !in shaderVariables ||
         shaderVariables[p.name] != SHADER_RESOURCE_TYPE_TEXTURE_SRV {
        MatchErrorStays(vars, props, i + 1);
        return Err(ArgumentError);
      }
      shaderVariables := shaderVariables - {p.name};
      dynamicVariables := dynamicVariables + [p.name];
    }
    assert props[..|props|] == props;
    r := Ok((shaderVariables, dynamicVariables));
  }

  // ----- constants-buffer layout

  /** The alignment of each parameter in the constants buffer. */
  const PARAM_ALIGNMENT: nat := 16

  /** The size a property takes in the constants buffer: its value's size, none for a texture. */
  function PropertySize(v: PropertyValue): (r: nat)
    ensures r == 0 <==> v.TextureValue?
  {
    match v
    case Int32Value(_) => 4
    case FloatValue(_) => 4
    case Vector2Value(_) => 8
    case Vector3Value(_) => 12
    case Vector4Value(_) => 16
    case MatrixValue(_) => 64
    case TextureValue(_) => 0
  }

  /** `(x + 15) / 16 * 16`: the least multiple of 16 that is at least x. */
  function AlignUp(x: nat): (r: nat)
    ensures r % PARAM_ALIGNMENT == 0
    ensures x <= r < x + PARAM_ALIGNMENT
  {
    (x + PARAM_ALIGNMENT - 1) / PARAM_ALIGNMENT * PARAM_ALIGNMENT
  }

  /** The buffer size after laying out `props` in order. */
  function LayoutEnd(props: seq<Property>): (r: nat)
    ensures r % PARAM_ALIGNMENT == 0
  {
    if props == [] then 0
    else AlignUp(LayoutEnd(props[..|props| - 1]) + PropertySize(props[|props| - 1].defaultValue))
  }

  /** `Material::Param`: a property and where its value lives in the constants buffer. */
  datatype Param = Param(name: string, defaultValue: PropertyValue, bufferOffset: nat)

  /** The parameters of `props`: each at the buffer size its predecessors leave. */
  function ParamsOf(props: seq<Property>): (params: seq<Param>)
    ensures |params| == |props|
    ensures forall i :: 0 <= i < |props| ==>
      params[i].name == props[i].name && params[i].defaultValue == props[i].defaultValue &&
      params[i].bufferOffset == LayoutEnd(props[..i])
  {
    if props == [] then []
    else
      var init, last := props[..|props| - 1], props[|props| - 1];
      InitPrefixes(props);
      ParamsOf(init) + [Param(last.name, last.defaultValue, LayoutEnd(init))]
  }

  /**
   * The parameter layout of `create_material`: each property is placed at
   * the current buffer size, which then grows by the property's size and is
   * aligned up to 16 bytes.
   */
  method LayoutParams(props: seq<Property>) returns (params: seq<Param>, bufferSize: nat)
    ensures params == ParamsOf(props)
    ensures bufferSize == LayoutEnd(props)
  {
    bufferSize := 0;
    params := [];
    for i := 0 to |props|
      invariant params == ParamsOf(props[..i])
      invariant bufferSize == LayoutEnd(props[..i])
    {
      assert props[..i + 1][..i] == props[..i];
      var p := props[i];
      params := params + [Param(p.name, p.defaultValue, bufferSize)];
      bufferSize := AlignUp(bufferSize + PropertySize(p.defaultValue));
    }
    assert props[..|props|] == props;
  }

  /** `create_material` makes a constants buffer exactly when the layout needs space. */
  function CreatesParamBuffer(bufferSize: nat): bool
  {
    bufferSize > 0
  }

  // ----- applying parameters

  /** `Material::Param` as a mesh instance provides it. */
  datatype ProvidedParam = ProvidedParam(name: string, value: PropertyValue)

  /**
   * The `find_if` lookup of `apply_material_params`: the value of the first
   * provided parameter with the name, or the default when none has it.
   */
  function ParamValue(provided: seq<ProvidedParam>, name: string, default: PropertyValue): (r: PropertyValue)
    ensures (forall i :: 0 <= i < |provided| ==> provided[i].name != name) ==> r == default
    ensures forall i ::
      (0 <= i < |provided| && provided[i].name == name && forall j :: 0 <= j < i ==> provided[j].name != name) ==>
        r == provided[i].value
  {
    if provided == [] then default
    else if provided[0].name == name then provided[0].value
    else ParamValue(provided[1..], name, default)
  }

  /** What applying a material's parameters does: texture bindings, constant writes and the buffer binding. */
  datatype Applied = Applied(
    textureBindings: seq<(string, nat)>, bufferWrites: seq<(nat, PropertyValue)>, materialBound: bool)

  /** The effect of one parameter: binds a non-null texture, or writes a constant when there is a buffer. */
  function ApplyOne(a: Applied, p: Param, value: PropertyValue, hasBuffer: bool): Applied
  {
    if value.TextureValue? then
      if value.texture.Some? then a.(textureBindings := a.textureBindings + [(p.name, value.texture.value)]) else a
    else if hasBuffer then a.(bufferWrites := a.bufferWrites + [(p.bufferOffset, value)])
    else a
  }

  /** The effect of the first n parameters. */
  function ApplySpec(params: seq<Param>, provided: seq<ProvidedParam>, hasBuffer: bool): Applied
  {
    if params == [] then Applied([], [], false)
    else
      var last := params[|params| - 1];
      ApplyOne(ApplySpec(params[..|params| - 1], provided, hasBuffer), last,
        ParamValue(provided, last.name, last.defaultValue), hasBuffer)
  }

  /**
   * `apply_material_params`: every parameter takes the provided value of
   * the same name or its default; texture values bind the texture (when it
   * is a renderer texture), other values are written at the parameter's
   * offset when the material has a constants buffer, which is then bound
   * as "Material".
   */
  method ApplyMaterialParams(params: seq<Param>, hasBuffer: bool, provided: seq<ProvidedParam>)
    returns (a: Applied)
    ensures a == ApplySpec(params, provided, hasBuffer).(materialBound := hasBuffer)
  {
    a := Applied([], [], false);
    for i := 0 to |params|
      invariant a == ApplySpec(params[..i], provided, hasBuffer)
    {
      assert params[..i + 1][..i] == params[..i];
      var param := params[i];
      var value := ParamValue(provided, param.name, param.defaultValue);
      if value.TextureValue? {
        if value.texture.Some? {
          a := a.(textureBindings := a.textureBindings + [(param.name, value.texture.value)]);
        }
      } else if hasBuffer {
        a := a.(bufferWrites := a.bufferWrites + [(param.bufferOffset, value)]);
      }
    }
    assert params[..|params|] == params;
    a := a.(materialBound := hasBuffer);
  }

  // ----- properties

  /** The prefixes of a sequence without its last element are its own prefixes. */
  lemma {:induction false} InitPrefixes<T>(s: seq<T>)
    requires |s| > 0
    ensures forall i :: 0 <= i < |s| ==> s[..|s| - 1][..i] == s[..i]
  {
  }

  /** A resource with a predefined name and another type is a clash. */
  lemma {:induction false} ClashAt(resources: seq<ResourceDesc>, i: nat)
    requires i < |resources| && resources[i].name in PREDEFINED
    requires PREDEFINED[resources[i].name] != resources[i].resourceType
    ensures Clash(resources)
  {
  }

  /** A resource with a non-predefined name or the predefined type adds no clash. */
  lemma {:induction false} ClashStep(resources: seq<ResourceDesc>, i: nat)
    requires i < |resources| && !Clash(resources[..i])
    requires resources[i].name in PREDEFINED ==> PREDEFINED[resources[i].name] == resources[i].resourceType
    ensures !Clash(resources[..i + 1])
  {
    var prefix := resources[..i + 1];
    assert forall k :: 0 <= k < i ==> prefix[k] == resources[..i][k];
    assert prefix[i] == resources[i];
  }

  /** A matching failure among the first n properties is a failure for all of them. */
  lemma {:induction false} MatchErrorStays(vars: map<string, ShaderResourceType>, props: seq<Property>, n: nat)
    requires n <= |props| && MatchProperties(vars, props[..n]).Err?
    ensures MatchProperties(vars, props) == Err(ArgumentError)
    decreases |props| - n
  {
    if n < |props| {
      assert props[..n + 1][..n] == props[..n];
      MatchErrorStays(vars, props, n + 1);
    } else {
      assert props[..n] == props;
    }
  }

  /**
   * Matching succeeds exactly when the texture property names are distinct
   * and each is admissible; it then leaves the variables no property named
   * and yields the texture names in order.
   */
  lemma {:induction false} MatchPropertiesMeaning(vars: map<string, ShaderResourceType>, props: seq<Property>)
    ensures MatchProperties(vars, props).Ok? <==>
      Distinct(TextureNames(props)) && forall n :: n in TextureNames(props) ==> Admissible(vars, n)
    ensures MatchProperties(vars, props).Ok? ==>
      MatchProperties(vars, props).value == (vars - NameSet(TextureNames(props)), TextureNames(props))
  {
    if props != [] {
      var init, last := props[..|props| - 1], props[|props| - 1];
      MatchPropertiesMeaning(vars, init);
      var names := TextureNames(init);
      var prev := MatchProperties(vars, init);
      if !last.defaultValue.TextureValue? {
        assert TextureNames(props) == names;
        assert MatchProperties(vars, props) == (if prev.Err? then Err(ArgumentError) else prev);
      } else {
        var all := names + [last.name];
        assert TextureNames(props) == all;
        DistinctSnoc(names, last.name);
        assert forall n :: n in all <==> n in names || n == last.name;
        if prev.Ok? {
          var left := vars - NameSet(names);
          assert MatchProperties(vars, props) == MatchStep(left, names, last);
          MatchStepMeaning(vars, names, last);
        }
      }
    } else {
      assert NameSet([]) == {};
      assert vars - {} == vars;
    }
  }

  /** Matching one texture property after the names so far succeeds exactly when it is admissible and new. */
  lemma {:induction false} MatchStepMeaning(vars: map<string, ShaderResourceType>, names: seq<string>, p: Property)
    requires p.defaultValue.TextureValue?
    ensures MatchStep(vars - NameSet(names), names, p).Ok? <==> Admissible(vars, p.name) && p.name !in names
    ensures MatchStep(vars - NameSet(names), names, p).Ok? ==>
      MatchStep(vars - NameSet(names), names, p).value ==
        (vars - NameSet(names + [p.name]), names + [p.name])
  {
    var left := vars - NameSet(names);
    if Admissible(vars, p.name) && p.name !in names {
      assert left[p.name] == vars[p.name];
      assert NameSet(names + [p.name]) == NameSet(names) + {p.name};
      assert left - {p.name} == vars - NameSet(names + [p.name]);
    }
  }

  /** Appending a name keeps the names distinct exactly when it is new. */
  lemma {:induction false} DistinctSnoc(names: seq<string>, x: string)
    ensures Distinct(names + [x]) <==> Distinct(names) && x !in names
  {
    var all := names + [x];
    if Distinct(all) {
      forall k | 0 <= k < |names|
        ensures names[k] != x
      {
        assert names[k] == all[k] && all[|names|] == x;
      }
      forall k, l | 0 <= k < l < |names|
        ensures names[k] != names[l]
      {
        assert names[k] == all[k] && names[l] == all[l];
      }
    }
    if Distinct(names) && x !in names {
      forall k, l | 0 <= k < l < |all|
        ensures all[k] != all[l]
      {
        if l == |names| {
          assert all[k] == names[k] && names[k] in names && all[l] == x;
        } else {
          assert all[k] == names[k] && all[l] == names[l];
        }
      }
    }
  }

  /** The shader variables are exactly the resources with a non-predefined name. */
  lemma {:induction false} ShaderVariablesMeaning(resources: seq<ResourceDesc>, name: string)
    ensures name in ShaderVariables(resources) <==>
      name !in PREDEFINED && exists i :: 0 <= i < |resources| && resources[i].name == name
  {
    if resources != [] {
      var init := resources[..|resources| - 1];
      ShaderVariablesMeaning(init, name);
      assert forall i :: 0 <= i < |init| ==> init[i] == resources[i];
      if name !in PREDEFINED && resources[|resources| - 1].name != name &&
         (exists i :: 0 <= i < |resources| && resources[i].name == name) {
        var i :| 0 <= i < |resources| && resources[i].name == name;
        assert init[i].name == name;
      }
    }
  }

  /**
   * The variable list is accepted exactly when no resource clashes with a
   * predefined type, the texture property names are distinct and each names
   * a texture variable of the shader that is not predefined, and every
   * non-predefined shader variable is named by a texture property; it is
   * then the texture property names in declaration order, then "Material".
   */
  lemma {:induction false} DynamicVariablesMeaning(vertex: seq<ResourceDesc>, pixel: seq<ResourceDesc>, props: seq<Property>)
    ensures DynamicVariables(vertex, pixel, props).Ok? <==>
      !Clash(vertex + pixel) && Distinct(TextureNames(props)) &&
      (forall n :: n in TextureNames(props) ==> Admissible(ShaderVariables(vertex + pixel), n)) &&
      (forall n :: n in ShaderVariables(vertex + pixel) ==> n in TextureNames(props))
    ensures DynamicVariables(vertex, pixel, props).Ok? ==>
      DynamicVariables(vertex, pixel, props).value == TextureNames(props) + ["Material"]
  {
    var vars := ShaderVariables(vertex + pixel);
    var tn := TextureNames(props);
    MatchPropertiesMeaning(vars, props);
    var left := vars - NameSet(tn);
    if forall n :: n in vars ==> n in tn {
      assert left == map[];
    } else {
      var n :| n in vars && n !in tn;
      assert n in left;
    }
  }

  /** Offsets grow: a later parameter starts no earlier than an earlier one ends. */
  lemma {:induction false} LayoutMonotone(props: seq<Property>, i: nat, j: nat)
    requires i < j <= |props|
    ensures LayoutEnd(props[..i]) + PropertySize(props[i].defaultValue) <= LayoutEnd(props[..j])
    decreases j - i
  {
    assert props[..i + 1][..i] == props[..i];
    if j > i + 1 {
      LayoutMonotone(props, i + 1, j);
    }
  }

  /** The buffer is empty exactly when every property is a texture, so a buffer is made iff some property is not. */
  lemma {:induction false} LayoutEmptyIffTextures(props: seq<Property>)
    ensures LayoutEnd(props) == 0 <==> forall i :: 0 <= i < |props| ==> props[i].defaultValue.TextureValue?
  {
    if props != [] {
      var init := props[..|props| - 1];
      LayoutEmptyIffTextures(init);
      assert forall i :: 0 <= i < |init| ==> init[i] == props[i];
    }
  }

  /**
   * A constant written at its parameter's offset with a value of the
   * default's kind stays inside the buffer and clear of every later
   * parameter.
   */
  lemma {:induction false} WriteWithinSlot(props: seq<Property>, i: nat, value: PropertyValue)
    requires i < |props| && PropertySize(value) == PropertySize(props[i].defaultValue)
    ensures LayoutEnd(props[..i]) + PropertySize(value) <= LayoutEnd(props)
    ensures forall j :: i < j < |props| ==> LayoutEnd(props[..i]) + PropertySize(value) <= LayoutEnd(props[..j])
  {
    LayoutMonotone(props, i, |props|);
    assert props[..|props|] == props;
    forall j | i < j < |props|
      ensures LayoutEnd(props[..i]) + PropertySize(value) <= LayoutEnd(props[..j])
    {
      LayoutMonotone(props, i, j);
    }
  }

  /** For a valid texture description, `create_texture` never asks for a 3D array. */
  lemma {:induction false} CreateTextureNeverArray3D(desc: TextureDesc)
    requires desc.dimension == Texture3D
    ensures CreateTextureDimension(desc) == RESOURCE_DIM_TEX_3D
    ensures desc.ArraySize() == 0
  {
  }

  /** Distinct engine values translate to distinct Diligent values. */
  lemma {:induction false} TranslationsInjective(c1: CullMode, c2: CullMode, f1: PixelFormat, f2: PixelFormat,
                              d1: TextureDimension, a1: bool, d2: TextureDimension, a2: bool)
    ensures ToCullMode(c1) == ToCullMode(c2) ==> c1 == c2
    ensures ToTextureFormat(f1) == ToTextureFormat(f2) ==> f1 == f2
    ensures d1 != Texture3D && d2 != Texture3D && ToResourceDimension(d1, a1) == ToResourceDimension(d2, a2) ==>
      d1 == d2 && a1 == a2
  {
  }
}
