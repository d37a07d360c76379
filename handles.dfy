/** Value types shared by the render resource manager: resource type tags,
    resource ids (handles), locators, lifecycle states and the outcome of an
    operation that can hit a fatal assertion. */
module Handles {

  /** The resource type tag carried by every id. `ConstantBlock` is reserved
      and has no pool; `InvalidType` stands for every tag outside the list. */
  datatype ResourceType =
    | Mesh
    | Texture
    | Shader
    | ProgramBundle
    | StateBlock
    | ConstantBlock
    | DepthStencilState
    | BlendState
    | InvalidType

  /** The seven types the manager owns a pool for. */
  predicate Pooled(t: ResourceType)
  {
    t != ConstantBlock && t != InvalidType
  }

  /** Only the mesh and texture pools load asynchronously and need a
      per-frame update. */
  predicate Async(t: ResourceType)
  {
    t == Mesh || t == Texture
  }

  /** A resource id: its type tag and the unique stamp its pool gave it, or
      the invalid id. */
  datatype Id = ResId(typ: ResourceType, uniqueStamp: nat) | InvalidId
  {
    predicate IsValid()
    {
      ResId?
    }

    function Type(): ResourceType
    {
      if ResId? then typ else InvalidType
    }
  }

  /** A locator names a resource for sharing; a non-shared locator is never
      found by a lookup, so every creation with it makes a new resource. */
  datatype Locator = Shared(location: string) | NonShared
  {
    predicate IsShared()
    {
      Shared?
    }
  }

  /** Lifecycle state of a resource slot. */
  datatype State = Initial | Setup | Pending | Valid | Failed | InvalidState

  /** The states a factory can leave a freshly assigned resource in:
      ready, failed, or (for asynchronous types only) still loading. */
  predicate Assignable(t: ResourceType, s: State)
  {
    s == Valid || s == Failed || (s == Pending && Async(t))
  }

  /** Why an operation stopped at a fatal assertion. */
  datatype Fault =
    | TypeMismatch   // a locator hit whose id has another type than the descriptor
    | Unimplemented  // a ConstantBlock id
    | UnknownType    // an id whose tag has no case

  datatype Outcome<T> = Ok(value: T) | Fatal(fault: Fault)
}
