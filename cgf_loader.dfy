/// CGF: a CryEngine model as the Aion client stores it. An "NCAion" signature, a file
/// type, a table of 16-byte chunk headers, and the chunks the table points at: materials,
/// nodes, meshes, helpers and keyframe controllers. Nodes form a tree by parent chunk id.
module CgfLoader {
  import opened Outcome
  import opened Bytes
  import Cursor
  import Float32
  import Repeated

  const WrongSignature := "Wrong signature"
  const WrongFiletype := "Wrong filetype"
  /** The InvalidOperationException thrown for animation data. */
  const AnimationData := "todo"
  /** The IOException of MemoryStream.Seek to a negative offset. */
  const SeekBeforeBegin := "an attempt was made to move the position before the beginning of the stream"
  const MeshOrHelperExpected := "Expected either a mesh or helper"
  const CollisionFlagExpected := "expected 0.0 or 1.0 for collision flag."
  const UnexpectedMaterialType := "unexpected matType under a matType 2"
  /** ArgumentException thrown without a message. */
  const ArgumentError := "value does not fall within the expected range"
  const UnexpectedControllerType := "unexpected controller type"
  const UnexpectedKeyCount := "unexpected key count"
  const UnexpectedControllerId := "unexpected controller id"
  /** What a recursion deeper than the call stack allows ends in. */
  const StackOverflow := "stack overflow"

  /** "NCAion" and two NULs. */
  const Signature: seq<byte> := [0x4E, 0x43, 0x41, 0x69, 0x6F, 0x6E, 0x00, 0x00]
  const StaticModel: u32 := 0xFFFF_0000
  const AnimationModel: u32 := 0xFFFF_0001

  /** The chunk types the loader reads. */
  const MeshChunk: u32 := 0xCCCC_0000
  const HelperChunk: u32 := 0xCCCC_0001
  const NodeChunk: u32 := 0xCCCC_000B
  const MaterialChunk: u32 := 0xCCCC_000C
  const ControllerChunk: u32 := 0xCCCC_000D

  const HeaderSize := 16
  /** A material's texture and shader block: 67 ints, 128 bytes, 263 ints, 128 bytes, 204 ints. */
  const MaterialSkip := 67 * 4 + 128 + 263 * 4 + 128 + 204 * 4
  /** After a material's header, name, type, count and skipped block: its flags, then its collision float. */
  const FlagsAt := 16 + 128 + 8 + MaterialSkip
  /** The controller types: BEZIER3, TCB3 and TCBQ. */
  const Bezier3 := 6
  const Tcb3 := 9
  const Tcbq := 10
  /** One vertex: three floats and a skipped normal; one face: three indices and two skipped ints. */
  const VertexSize := 24
  const FaceSize := 20

  /** A chunk header as the table holds it. */
  datatype ChunkHeader = ChunkHeader(chunkType: u32, chunkVersion: i32, chunkOffset: i32, chunkId: i32)

  /**
   * MaterialData: the 128 bytes of its name, its type, the member ids of a group (type 2
   * with a positive count; null otherwise), its flags and its collision flag.
   */
  datatype MaterialData = MaterialData(nameBytes: seq<byte>, materialType: i32, multiMaterialIds: Option<seq<i32>>,
                                       materialFlags: i32, isCollision: bool)

  datatype MeshFace = MeshFace(v0: i32, v1: i32, v2: i32)

  /** MeshData: the vertices (as read, before the division by 100) and the faces. */
  datatype MeshData = MeshData(vertices: seq<Float32.Vec3Bits>, indices: seq<MeshFace>)

  datatype HelperData = HelperData(helperType: i32, position: Float32.Vec3Bits)

  /**
   * NodeData without its children: the loader keeps the node objects in `store`, and
   * Nodes and Children refer to them by position there.
   */
  datatype NodeData = NodeData(chunkId: i32, materialId: i32, material: Option<MaterialData>, parentId: i32,
                               objectId: i32, mesh: Option<MeshData>, helper: Option<HelperData>,
                               transform: seq<u32>, position: Float32.Vec3Bits, rotQuat: seq<u32>, scale: Float32.Vec3Bits,
                               positionControllerId: i32, rotationControllerId: i32, scaleControllerId: i32)

  /** One keyframe of a controller: its start time and nine float parameters. */
  datatype Key = Key(startTicks: i32, params: seq<u32>)

  /** What a successful load leaves: the chunk table, the materials by chunk index, the node tree. */
  datatype Contents = Contents(headers: seq<ChunkHeader>, materials: map<int, MaterialData>,
                               store: seq<NodeData>, roots: seq<nat>, children: seq<seq<nat>>)

  // ---------------------------------------------------------------------------
  // The file as Load reads it

  /** `ReadBytes(8)`: the first eight bytes, or all of a shorter file. */
  function SignatureBytes(d: seq<byte>): seq<byte>
  {
    d[..Cursor.Min(8, |d|)]
  }

  /**
   * The signature test from byte k on: the first byte that differs throws IOException;
   * indexing past a short read throws first.
   */
  function SignatureCheck(sig: seq<byte>, k: nat): Result<()>
    requires k <= 8
    decreases 8 - k
  {
    if k == 8 then Ok(())
    else if k >= |sig| then Err(IndexOutOfRange)
    else if sig[k] != Signature[k] then Err(WrongSignature)
    else SignatureCheck(sig, k + 1)
  }

  function HeaderAt(d: seq<byte>, p: nat): ChunkHeader
    requires p + HeaderSize <= |d|
  {
    ChunkHeader(U32(d, p), I32(d, p + 4), I32(d, p + 8), I32(d, p + 12))
  }

  /** The chunk table from header i of count at position p: the headers and the position after them. */
  function Table(d: seq<byte>, p: nat, i: nat, count: int): Result<(seq<ChunkHeader>, nat)>
    decreases count - i
  {
    if i >= count then Ok(([], p))
    else if p + HeaderSize > |d| then Err(EndOfStream)
    else Repeated.Prepend([HeaderAt(d, p)], Table(d, p + HeaderSize, i + 1, count))
  }

  /** Three floats at p. */
  function Vec3At(d: seq<byte>, p: nat): Float32.Vec3Bits
    requires p + 12 <= |d|
  {
    Float32.Vec3Bits(U32(d, p), U32(d, p + 4), U32(d, p + 8))
  }

  /** n floats from p on. */
  function Floats(d: seq<byte>, p: nat, n: nat): (fs: seq<u32>)
    requires p + 4 * n <= |d|
    ensures |fs| == n
  {
    seq(n, k requires 0 <= k < n => U32(d, p + 4 * k))
  }

  /** n ints from p on. */
  function Ints(d: seq<byte>, p: nat, n: nat): (vs: seq<i32>)
    requires p + 4 * n <= |d|
    ensures |vs| == n
  {
    seq(n, k requires 0 <= k < n => I32(d, p + 4 * k))
  }

  /** C#'s `collision != 0f && collision != 1f` is false: the float is +0, -0 or 1. */
  predicate CollisionFlagValid(c: u32)
  {
    Float32.Equal(c, Float32.Zero) || Float32.Equal(c, Float32.One)
  }

  /**
   * LoadMaterialData for the chunk at offset: the header skipped, the name (read leniently,
   * but the type read after it needs all of it), the type and the group count, the skipped
   * block, the flags and the collision float, two skipped floats, then the member ids.
   */
  function MaterialAt(d: seq<byte>, offset: i32): Result<MaterialData>
  {
    if offset < 0 then Err(SeekBeforeBegin)
    else
      var o := offset as nat;
      if o + 152 > |d| then Err(EndOfStream)
      else
        var materialType := I32(d, o + 144);
        var multicount := if materialType == 2 then I32(d, o + 148) else 0;
        if o + FlagsAt + 8 > |d| then Err(EndOfStream)
        else if !CollisionFlagValid(U32(d, o + FlagsAt + 4)) then Err(CollisionFlagExpected)
        else if o + FlagsAt + 16 > |d| then Err(EndOfStream)
        else if multicount > 0 && o + FlagsAt + 16 + 4 * multicount > |d| then Err(EndOfStream)
        else
          Ok(MaterialData(d[o + 16..o + 144], materialType,
                          if multicount > 0 then Some(Ints(d, o + FlagsAt + 16, multicount)) else None,
                          I32(d, o + FlagsAt), Float32.Equal(U32(d, o + FlagsAt + 4), Float32.One)))
  }

  /** The material loop over the first k chunks: `m_materials.Add(i, ...)` for each material chunk. */
  function MaterialsUpTo(d: seq<byte>, hs: seq<ChunkHeader>, k: nat): Result<map<int, MaterialData>>
    requires k <= |hs|
  {
    if k == 0 then Ok(map[])
    else
      match MaterialsUpTo(d, hs, k - 1)
      case Err(e) => Err(e)
      case Ok(m) =>
        if hs[k - 1].chunkType != MaterialChunk then Ok(m)
        else
          match MaterialAt(d, hs[k - 1].chunkOffset)
          case Err(e) => Err(e)
          case Ok(mat) => Ok(m[k - 1 := mat])
  }

  /** GetMeshData for chunk idx: null unless it is a mesh chunk; a negative count makes `new T[]` throw. */
  function MeshAt(d: seq<byte>, hs: seq<ChunkHeader>, idx: nat): Result<Option<MeshData>>
    requires idx < |hs|
  {
    if hs[idx].chunkType != MeshChunk then Ok(None)
    else if hs[idx].chunkOffset < 0 then Err(SeekBeforeBegin)
    else
      var o := hs[idx].chunkOffset as nat;
      if o + 36 > |d| then Err(EndOfStream)
      else
        var verticesCount := I32(d, o + 20);
        var indicesCount := I32(d, o + 28);
        if verticesCount < 0 || indicesCount < 0 then Err(Overflow)
        else if o + 36 + VertexSize * verticesCount + FaceSize * indicesCount > |d| then Err(EndOfStream)
        else Ok(Some(MeshData(Vertices(d, o + 36, verticesCount), Faces(d, o + 36 + VertexSize * verticesCount, indicesCount))))
  }

  function VertexAt(d: seq<byte>, p: nat): Float32.Vec3Bits
    requires p + VertexSize <= |d|
  {
    Vec3At(d, p)
  }

  function Vertices(d: seq<byte>, p: nat, n: nat): (vs: seq<Float32.Vec3Bits>)
    requires p + VertexSize * n <= |d|
    ensures |vs| == n
  {
    seq(n, k requires 0 <= k < n => VertexAt(d, p + VertexSize * k))
  }

  function FaceAt(d: seq<byte>, p: nat): MeshFace
    requires p + FaceSize <= |d|
  {
    MeshFace(I32(d, p), I32(d, p + 4), I32(d, p + 8))
  }

  function Faces(d: seq<byte>, p: nat, n: nat): (fs: seq<MeshFace>)
    requires p + FaceSize * n <= |d|
    ensures |fs| == n
  {
    seq(n, k requires 0 <= k < n => FaceAt(d, p + FaceSize * k))
  }

  /** GetHelperData for chunk idx: null unless it is a helper chunk; its type and position. */
  function HelperAt(d: seq<byte>, hs: seq<ChunkHeader>, idx: nat): Result<Option<HelperData>>
    requires idx < |hs|
  {
    if hs[idx].chunkType != HelperChunk then Ok(None)
    else if hs[idx].chunkOffset < 0 then Err(SeekBeforeBegin)
    else
      var o := hs[idx].chunkOffset as nat;
      if o + 32 > |d| then Err(EndOfStream)
      else Ok(Some(HelperData(I32(d, o + 16), Vec3At(d, o + 20))))
  }

  /**
   * GetNodeData for chunk idx: its chunk id, 64 skipped bytes, the object it shows (a mesh
   * or a helper, looked up in the chunk list, which throws out of range), then the rest.
   */
  function NodeAt(d: seq<byte>, hs: seq<ChunkHeader>, mats: map<int, MaterialData>, idx: nat): Result<NodeData>
    requires idx < |hs|
  {
    if hs[idx].chunkOffset < 0 then Err(SeekBeforeBegin)
    else
      var o := hs[idx].chunkOffset as nat;
      if o + 84 > |d| then Err(EndOfStream)
      else
        var objectId := I32(d, o + 80);
        if !(0 <= objectId < |hs|) then Err(ArgumentOutOfRange)
        else
          match MeshAt(d, hs, objectId)
          case Err(e) => Err(e)
          case Ok(mesh) =>
            match HelperAt(d, hs, objectId)
            case Err(e) => Err(e)
            case Ok(helper) =>
              if mesh.None? && helper.None? then Err(MeshOrHelperExpected)
              else NodeRest(d, mats, o, objectId, mesh, helper)
  }

  /**
   * The rest of a node after its object: parent id, a skipped child count, the material
   * (looked up by chunk index unless -1, which throws when absent), a skipped int, the
   * transform, position, rotation, scale and the three controller ids.
   */
  function NodeRest(d: seq<byte>, mats: map<int, MaterialData>, o: nat, objectId: i32,
                    mesh: Option<MeshData>, helper: Option<HelperData>): Result<NodeData>
    requires o + 84 <= |d|
  {
    if o + 96 > |d| then Err(EndOfStream)
    else
      var materialId := I32(d, o + 92);
      if materialId != -1 && materialId !in mats then Err(KeyNotFound)
      else if o + 216 > |d| then Err(EndOfStream)
      else
        Ok(NodeData(I32(d, o + 12), materialId, if materialId == -1 then None else Some(mats[materialId]),
                    I32(d, o + 84), objectId, mesh, helper,
                    Floats(d, o + 100, 16), Vec3At(d, o + 164), Floats(d, o + 176, 4), Vec3At(d, o + 192),
                    I32(d, o + 204), I32(d, o + 208), I32(d, o + 212)))
  }

  /** The node loop over the first k chunks: one node per node chunk, in table order. */
  function NodesUpTo(d: seq<byte>, hs: seq<ChunkHeader>, mats: map<int, MaterialData>, k: nat): Result<seq<NodeData>>
    requires k <= |hs|
  {
    if k == 0 then Ok([])
    else
      match NodesUpTo(d, hs, mats, k - 1)
      case Err(e) => Err(e)
      case Ok(ns) =>
        if hs[k - 1].chunkType != NodeChunk then Ok(ns)
        else
          match NodeAt(d, hs, mats, k - 1)
          case Err(e) => Err(e)
          case Ok(n) => Ok(ns + [n])
  }

  // ---------------------------------------------------------------------------
  // The node tree

  /** The first node from position j on whose chunk id is id. */
  function FirstFrom(store: seq<NodeData>, id: int, j: nat): (r: Option<nat>)
    requires j <= |store|
    ensures r.Some? ==> j <= r.value < |store| && store[r.value].chunkId == id
    ensures r.Some? ==> forall i :: j <= i < r.value ==> store[i].chunkId != id
    ensures r.None? ==> forall i :: j <= i < |store| ==> store[i].chunkId != id
    decreases |store| - j
  {
    if j == |store| then None
    else if store[j].chunkId == id then Some(j)
    else FirstFrom(store, id, j + 1)
  }

  /** The parent a node is appended to: none for a top-level node (parent -1) or an orphan. */
  function ParentOf(store: seq<NodeData>, j: nat): Option<nat>
    requires j < |store|
  {
    if store[j].parentId == -1 then None else FirstFrom(store, store[j].parentId, 0)
  }

  /** `Nodes` after the first k nodes: the top-level ones, in order. */
  function Roots(store: seq<NodeData>, k: nat): seq<nat>
    requires k <= |store|
  {
    if k == 0 then []
    else Roots(store, k - 1) + (if store[k - 1].parentId == -1 then [k - 1] else [])
  }

  /** Every node without children: C#'s null Children. */
  function NoChildren(n: nat): (c: seq<seq<nat>>)
    ensures |c| == n && forall p :: 0 <= p < n ==> c[p] == []
  {
    seq(n, _ => [])
  }

  /** The Children of every node after the first k nodes were placed. */
  function ChildrenUpTo(store: seq<NodeData>, k: nat): (c: seq<seq<nat>>)
    requires k <= |store|
    ensures |c| == |store|
  {
    if k == 0 then NoChildren(|store|)
    else
      var c := ChildrenUpTo(store, k - 1);
      match ParentOf(store, k - 1)
      case None => c
      case Some(p) => c[p := c[p] + [k - 1]]
  }

  /** Load: the signature, the file type, then the chunks. */
  function Parse(d: seq<byte>): Result<Contents>
  {
    match SignatureCheck(SignatureBytes(d), 0)
    case Err(e) => Err(e)
    case Ok(_) =>
      if |d| < 12 then Err(EndOfStream)
      else if U32(d, 8) == AnimationModel then Err(AnimationData)
      else if U32(d, 8) != StaticModel then Err(WrongFiletype)
      else if |d| < 20 then Err(EndOfStream)
      else Chunks(d, I32(d, 16))
  }

  /** The chunk table at tableOffset, then what is built from it. */
  function Chunks(d: seq<byte>, tableOffset: i32): Result<Contents>
  {
    if tableOffset < 0 then Err(SeekBeforeBegin)
    else if tableOffset as nat + 4 > |d| then Err(EndOfStream)
    else
      match Table(d, tableOffset as nat + 4, 0, I32(d, tableOffset as nat))
      case Err(e) => Err(e)
      case Ok(t) => Built(d, t.0)
  }

  /** The materials, then the nodes, then the tree. */
  function Built(d: seq<byte>, hs: seq<ChunkHeader>): Result<Contents>
  {
    match MaterialsUpTo(d, hs, |hs|)
    case Err(e) => Err(e)
    case Ok(mats) =>
      match NodesUpTo(d, hs, mats, |hs|)
      case Err(e) => Err(e)
      case Ok(store) => Ok(Contents(hs, mats, store, Roots(store, |store|), ChildrenUpTo(store, |store|)))
  }

  function Unit(x: Result<Contents>): Result<()>
  {
    match x
    case Err(e) => Err(e)
    case Ok(_) => Ok(())
  }

  // ---------------------------------------------------------------------------
  // Collision

  /**
   * IsMaterialCollidable: true for a collision material; otherwise the scan of its group.
   * The recursion into nested groups is bounded by fuel, which stands for the call stack.
   */
  function MaterialCollidable(mats: map<int, MaterialData>, m: MaterialData, fuel: nat): Result<bool>
    decreases fuel, 1, 0
  {
    if m.isCollision then Ok(true)
    else if m.multiMaterialIds.None? then Ok(false)
    else GroupCollidable(mats, m.multiMaterialIds.value, 0, fuel)
  }

  /**
   * The scan of a group from member i: -1 and type 0 are skipped, a missing id throws, a
   * nested group (type 2) is searched, any type but 1 and 2 throws, and a collision member
   * ends the scan with true.
   */
  function GroupCollidable(mats: map<int, MaterialData>, ids: seq<i32>, i: nat, fuel: nat): Result<bool>
    requires i <= |ids|
    decreases fuel, 0, |ids| - i
  {
    if i == |ids| then Ok(false)
    else if ids[i] == -1 then GroupCollidable(mats, ids, i + 1, fuel)
    else if ids[i] !in mats then Err(KeyNotFound)
    else
      var m := mats[ids[i]];
      if m.materialType == 0 then GroupCollidable(mats, ids, i + 1, fuel)
      else if m.materialType == 2 then
        if fuel == 0 then Err(StackOverflow)
        else
          match MaterialCollidable(mats, m, fuel - 1)
          case Err(e) => Err(e)
          case Ok(b) => if b || m.isCollision then Ok(true) else GroupCollidable(mats, ids, i + 1, fuel)
      else if m.materialType != 1 then Err(UnexpectedMaterialType)
      else if m.isCollision then Ok(true)
      else GroupCollidable(mats, ids, i + 1, fuel)
  }

  /** IsNodeCollidable: false without a material, otherwise its material's answer. */
  function NodeCollidable(mats: map<int, MaterialData>, node: NodeData, fuel: nat): Result<bool>
  {
    if node.material.None? then Ok(false) else MaterialCollidable(mats, node.material.value, fuel)
  }

  // ---------------------------------------------------------------------------
  // Controllers and CloneAtTime

  /**
   * The controller type test as written: it throws only when the type is not the expected
   * one, is not BEZIER3, and TCB3 was not asked for.
   */
  predicate TypeRejected(controllerType: int, expected: int)
  {
    controllerType != expected && (controllerType != Bezier3 && expected != Tcb3)
  }

  /** Every key has nine parameters. */
  predicate NineParams(keys: seq<Key>)
  {
    forall k :: 0 <= k < |keys| ==> |keys[k].params| == 9
  }

  /** A key: its start ticks and eight floats, a ninth for a TCBQ controller (zero otherwise). */
  function KeySize(tcbq: bool): nat
  {
    if tcbq then 40 else 36
  }

  function KeyAt(d: seq<byte>, p: nat, tcbq: bool): Key
    requires p + KeySize(tcbq) <= |d|
  {
    Key(I32(d, p), Floats(d, p + 4, 8) + [if tcbq then U32(d, p + 36) else Float32.Zero])
  }

  /** The key loop from key i of count at position p. */
  function Keys(d: seq<byte>, p: nat, i: nat, count: int, tcbq: bool): (r: Result<(seq<Key>, nat)>)
    ensures r.Ok? ==> NineParams(r.value.0)
    decreases count - i
  {
    if i >= count then Ok(([], p))
    else if p + KeySize(tcbq) > |d| then Err(EndOfStream)
    else Repeated.Prepend([KeyAt(d, p, tcbq)], Keys(d, p + KeySize(tcbq), i + 1, count, tcbq))
  }

  /**
   * GetControllerData(idx, expected): the index and the chunk type are checked, then the
   * controller type, the key count (at least one) and the controller id (idx); then the keys.
   */
  function Controller(d: seq<byte>, hs: seq<ChunkHeader>, idx: int, expected: int): (r: Result<seq<Key>>)
    ensures r.Ok? ==> NineParams(r.value)
  {
    if !(0 <= idx < |hs|) then Err(ArgumentOutOfRange)
    else if hs[idx].chunkType != ControllerChunk then Err(ArgumentError)
    else if hs[idx].chunkOffset < 0 then Err(SeekBeforeBegin)
    else
      var o := hs[idx].chunkOffset as nat;
      if o + 20 > |d| then Err(EndOfStream)
      else if TypeRejected(I32(d, o + 16), expected) then Err(UnexpectedControllerType)
      else if o + 32 > |d| then Err(EndOfStream)
      else if I32(d, o + 20) < 1 then Err(UnexpectedKeyCount)
      else if I32(d, o + 28) != idx then Err(UnexpectedControllerId)
      else
        match Keys(d, o + 32, 0, I32(d, o + 20), I32(d, o + 16) == Tcbq)
        case Err(e) => Err(e)
        case Ok(r) => Ok(r.0)
  }

  /** Among the first n keys, the last one that starts at or before ticks. */
  function LastKeyAtOrBefore(keys: seq<Key>, ticks: int, n: nat): (r: Option<nat>)
    requires n <= |keys|
    ensures r.Some? ==> r.value < n && keys[r.value].startTicks <= ticks
    ensures r.Some? ==> forall j :: r.value < j < n ==> keys[j].startTicks > ticks
    ensures r.None? ==> forall j :: 0 <= j < n ==> keys[j].startTicks > ticks
  {
    if n == 0 then None
    else if keys[n - 1].startTicks <= ticks then Some(n - 1)
    else LastKeyAtOrBefore(keys, ticks, n - 1)
  }

  /** The position at ticks: the first three parameters of that key, or the node's own. */
  function PositionAt(keys: seq<Key>, ticks: int, position: Float32.Vec3Bits): Float32.Vec3Bits
    requires NineParams(keys)
  {
    match LastKeyAtOrBefore(keys, ticks, |keys|)
    case None => position
    case Some(k) => Float32.Vec3Bits(keys[k].params[0], keys[k].params[1], keys[k].params[2])
  }

  /**
   * One top-level node of CloneAtTime: the position from its position controller, then
   * the rotation and scale controllers read (their float updates are not modelled).
   */
  function Retimed(d: seq<byte>, hs: seq<ChunkHeader>, node: NodeData, ticks: int): Result<NodeData>
  {
    var position :=
      if node.positionControllerId == -1 then Ok(node.position)
      else
        match Controller(d, hs, node.positionControllerId, Tcb3)
        case Err(e) => Err(e)
        case Ok(keys) => Ok(PositionAt(keys, ticks, node.position));
    var rotation := if node.rotationControllerId == -1 then Ok([]) else Controller(d, hs, node.rotationControllerId, Tcbq);
    var scale := if node.scaleControllerId == -1 then Ok([]) else Controller(d, hs, node.scaleControllerId, Tcb3);
    if position.Err? then Err(position.error)
    else if rotation.Err? then Err(rotation.error)
    else if scale.Err? then Err(scale.error)
    else Ok(node.(position := position.value))
  }

  /** The clone's nodes after the first k top-level nodes were retimed. */
  function ClonedUpTo(d: seq<byte>, hs: seq<ChunkHeader>, store: seq<NodeData>, roots: seq<nat>, ticks: int, k: nat): (r: Result<seq<NodeData>>)
    requires k <= |roots| && forall j :: 0 <= j < |roots| ==> roots[j] < |store|
    ensures r.Ok? ==> |r.value| == |store|
  {
    if k == 0 then Ok(store)
    else
      match ClonedUpTo(d, hs, store, roots, ticks, k - 1)
      case Err(e) => Err(e)
      case Ok(s) =>
        match Retimed(d, hs, s[roots[k - 1]], ticks)
        case Err(e) => Err(e)
        case Ok(n) => Ok(s[roots[k - 1] := n])
  }

  /** CloneAtTime: the file loaded again, its top-level nodes retimed in order. */
  function Clone(d: seq<byte>, ticks: int): Result<seq<NodeData>>
  {
    match Parse(d)
    case Err(e) => Err(e)
    case Ok(c) =>
      ParsedTree(d);
      RootsBelow(c.store, |c.store|);
      ClonedUpTo(d, c.headers, c.store, c.roots, ticks, |c.roots|)
  }

  // ---------------------------------------------------------------------------
  // The loader

  class Loader {
    var originalFileBytes: seq<byte>
    var chunkHeaders: seq<ChunkHeader>
    var materials: map<int, MaterialData>
    /** The NodeData objects in creation order; `nodes` and `children` hold positions in it. */
    var store: seq<NodeData>
    var nodes: seq<nat>
    var children: seq<seq<nat>>

    /** The field initialisers: no nodes, no materials. */
    constructor()
      ensures nodes == [] && materials == map[] && store == [] && children == []
    {
      originalFileBytes := [];
      chunkHeaders := [];
      materials := map[];
      store := [];
      nodes := [];
      children := [];
    }

    /** The fields after a successful load of d. */
    predicate Loaded(d: seq<byte>, c: Contents)
      reads this
    {
      originalFileBytes == d && chunkHeaders == c.headers && materials == c.materials
      && store == c.store && nodes == c.roots && children == c.children
    }

    /** Load: throws where Parse fails, with Parse's exception; otherwise fills the fields. */
    method Load(d: seq<byte>) returns (r: Result<()>)
      modifies this
      ensures r == Unit(Parse(d))
      ensures r.Ok? ==> Loaded(d, Parse(d).value)
    {
      originalFileBytes := d;
      var signature := SignatureBytes(d);
      var checked := SignatureCheck(signature, 0);
      if checked.Err? {
        return Err(checked.error);
      }
      var fileType, p1 := Cursor.ReadU32(d, 8);
      if fileType.Err? {
        return Err(EndOfStream);
      }
      if fileType.value == AnimationModel {
        return Err(AnimationData);
      }
      if fileType.value != StaticModel {
        return Err(WrongFiletype);
      }
      var unknown, p2 := Cursor.ReadI32(d, p1);
      var tableOffset, p3 := Cursor.ReadI32(d, p2);
      if unknown.Err? || tableOffset.Err? {
        return Err(EndOfStream);
      }
      assert Parse(d) == Chunks(d, tableOffset.value);
      r := LoadChunks(d, tableOffset.value);
    }

    /** The rest of Load from the table offset: the table, the materials, the nodes, the tree. */
    method LoadChunks(d: seq<byte>, tableOffset: i32) returns (r: Result<()>)
      requires originalFileBytes == d
      modifies this
      ensures r == Unit(Chunks(d, tableOffset))
      ensures r.Ok? ==> Loaded(d, Chunks(d, tableOffset).value)
    {
      if tableOffset < 0 {
        return Err(SeekBeforeBegin);
      }
      var chunksCount, p := Cursor.ReadI32(d, tableOffset as nat);
      if chunksCount.Err? {
        return Err(EndOfStream);
      }
      var table := ReadTable(d, p, chunksCount.value);
      if table.Err? {
        return Err(table.error);
      }
      chunkHeaders := table.value.0;
      var mats := LoadMaterials(d, chunkHeaders);
      if mats.Err? {
        return Err(mats.error);
      }
      materials := mats.value;
      var flat := LoadNodes(d, chunkHeaders, materials);
      if flat.Err? {
        return Err(flat.error);
      }
      store := flat.value;
      nodes, children := BuildTree(store);
      r := Ok(());
    }

    /** IsNodeCollidable, on this loader's materials. */
    function IsNodeCollidable(node: NodeData, fuel: nat): Result<bool>
      reads this
    {
      NodeCollidable(materials, node, fuel)
    }

    /**
     * CloneAtTime: a new loader over the same bytes, whose top-level nodes take the
     * position of their last position key that starts at or before ticks.
     */
    method CloneAtTime(ticks: i32) returns (r: Result<Loader>)
      ensures r.Ok? <==> Clone(originalFileBytes, ticks).Ok?
      ensures r.Err? ==> r.error == Clone(originalFileBytes, ticks).error
      ensures r.Ok? ==> fresh(r.value) && r.value.store == Clone(originalFileBytes, ticks).value
      ensures r.Ok? ==> var c := Parse(originalFileBytes).value;
                        r.value.nodes == c.roots && r.value.children == c.children && r.value.materials == c.materials
    {
      var d := originalFileBytes;
      var reloaded := Open(d);
      if reloaded.Err? {
        return Err(reloaded.error);
      }
      var clone := reloaded.value;
      ghost var c := Parse(d).value;
      ParsedTree(d);
      RootsBelow(c.store, |c.store|);
      assert Clone(d, ticks) == ClonedUpTo(d, c.headers, c.store, c.roots, ticks, |c.roots|);
      var retimed := RetimeRoots(d, clone.chunkHeaders, clone.store, clone.nodes, ticks);
      if retimed.Err? {
        return Err(retimed.error);
      }
      clone.store := retimed.value;
      r := Ok(clone);
    }
  }

  /** `new CgfLoader(stream)`: the constructor runs Load, so a bad file makes it throw. */
  method Open(d: seq<byte>) returns (r: Result<Loader>)
    ensures r.Ok? <==> Parse(d).Ok?
    ensures r.Err? ==> r.error == Parse(d).error
    ensures r.Ok? ==> fresh(r.value) && r.value.Loaded(d, Parse(d).value)
  {
    var cgf := new Loader();
    var loaded := cgf.Load(d);
    if loaded.Err? {
      return Err(loaded.error);
    }
    r := Ok(cgf);
  }

  /** The chunk table loop of Load: chunksCount headers of 16 bytes, appended in order. */
  method ReadTable(d: seq<byte>, start: nat, count: i32) returns (r: Result<(seq<ChunkHeader>, nat)>)
    ensures r == Table(d, start, 0, count)
  {
    var headers: seq<ChunkHeader> := [];
    var p: nat := start;
    var i: nat := 0;
    Repeated.PrependNothing(Table(d, p, i, count));
    while i < count
      invariant (i <= count || i == 0) && i == |headers|
      invariant Table(d, start, 0, count) == Repeated.Prepend(headers, Table(d, p, i, count))
      decreases count - i
    {
      var chunkType, p1 := Cursor.ReadU32(d, p);
      var chunkVersion, p2 := Cursor.ReadI32(d, p1);
      var chunkOffset, p3 := Cursor.ReadI32(d, p2);
      var chunkId, p4 := Cursor.ReadI32(d, p3);
      if chunkType.Err? || chunkVersion.Err? || chunkOffset.Err? || chunkId.Err? {
        return Err(EndOfStream);
      }
      var header := ChunkHeader(chunkType.value, chunkVersion.value, chunkOffset.value, chunkId.value);
      assert header == HeaderAt(d, p);
      Repeated.PrependStep(headers, header, Table(d, p4, i + 1, count));
      headers := headers + [header];
      p := p4;
      i := i + 1;
    }
    assert Table(d, p, i, count) == Ok(([], p)) && headers + [] == headers;
    r := Ok((headers, p));
  }

  /** The material loop of Load: every material chunk loaded, keyed by its chunk index. */
  method LoadMaterials(d: seq<byte>, hs: seq<ChunkHeader>) returns (r: Result<map<int, MaterialData>>)
    ensures r == MaterialsUpTo(d, hs, |hs|)
  {
    var mats: map<int, MaterialData> := map[];
    var i := 0;
    while i < |hs|
      invariant i <= |hs| && MaterialsUpTo(d, hs, i) == Ok(mats)
    {
      if hs[i].chunkType == MaterialChunk {
        var mat := LoadMaterialData(d, hs[i].chunkOffset);
        if mat.Err? {
          MaterialsErrStays(d, hs, i + 1, |hs|);
          return Err(mat.error);
        }
        mats := mats[i := mat.value];
      }
      i := i + 1;
    }
    r := Ok(mats);
  }

  /** LoadMaterialData for the chunk at offset. */
  method LoadMaterialData(d: seq<byte>, offset: i32) returns (r: Result<MaterialData>)
    ensures r == MaterialAt(d, offset)
  {
    if offset < 0 {
      return Err(SeekBeforeBegin);
    }
    var o := offset as nat;
    if o + 152 > |d| {
      return Err(EndOfStream);
    }
    var nameBytes := d[o + 16..o + 144];
    var materialType := I32(d, o + 144);
    var tmp := I32(d, o + 148);
    var multicount := 0;
    if materialType == 2 {
      multicount := tmp;
    }
    var flags, q1 := Cursor.ReadI32(d, o + FlagsAt);
    var collision, q2 := Cursor.ReadF32(d, q1);
    if flags.Err? || collision.Err? {
      return Err(EndOfStream);
    }
    if !Float32.Equal(collision.value, Float32.Zero) && !Float32.Equal(collision.value, Float32.One) {
      return Err(CollisionFlagExpected);
    }
    var isCollision := Float32.Equal(collision.value, Float32.One);
    var skipped, q3 := Cursor.Skip(d, q2, 8);
    if skipped.Err? {
      return Err(EndOfStream);
    }
    var ids: Option<seq<i32>> := None;
    if multicount > 0 {
      var read := ReadInts(d, q3, multicount);
      if read.Err? {
        return Err(EndOfStream);
      }
      ids := Some(read.value);
    }
    r := Ok(MaterialData(nameBytes, materialType, ids, flags.value, isCollision));
  }

  /** n ints read one after another from start; the stream must hold all of them. */
  method ReadInts(d: seq<byte>, start: nat, n: nat) returns (r: Result<seq<i32>>)
    ensures start + 4 * n <= |d| ==> r == Ok(Ints(d, start, n))
    ensures start + 4 * n > |d| ==> r == Err(EndOfStream)
  {
    var vs: seq<i32> := [];
    var i := 0;
    while i < n
      invariant i <= n && |vs| == i
      invariant start + 4 * i <= |d| || i == 0
      invariant forall k :: 0 <= k < i ==> start + 4 * k + 4 <= |d| && vs[k] == I32(d, start + 4 * k)
    {
      var v, q := Cursor.ReadI32(d, start + 4 * i);
      if v.Err? {
        return Err(EndOfStream);
      }
      vs := vs + [v.value];
      i := i + 1;
    }
    if start + 4 * n > |d| {
      return Err(EndOfStream);
    }
    assert vs == Ints(d, start, n);
    r := Ok(vs);
  }

  /** The node loop of Load: one node per node chunk, appended in table order. */
  method LoadNodes(d: seq<byte>, hs: seq<ChunkHeader>, mats: map<int, MaterialData>) returns (r: Result<seq<NodeData>>)
    ensures r == NodesUpTo(d, hs, mats, |hs|)
  {
    var flat: seq<NodeData> := [];
    var i := 0;
    while i < |hs|
      invariant i <= |hs| && NodesUpTo(d, hs, mats, i) == Ok(flat)
    {
      if hs[i].chunkType == NodeChunk {
        var node := GetNodeData(d, hs, mats, i);
        if node.Err? {
          NodesErrStays(d, hs, mats, i + 1, |hs|);
          return Err(node.error);
        }
        flat := flat + [node.value];
      }
      i := i + 1;
    }
    r := Ok(flat);
  }

  /** GetNodeData for chunk idx. */
  method GetNodeData(d: seq<byte>, hs: seq<ChunkHeader>, mats: map<int, MaterialData>, idx: nat) returns (r: Result<NodeData>)
    requires idx < |hs|
    ensures r == NodeAt(d, hs, mats, idx)
  {
    if hs[idx].chunkOffset < 0 {
      return Err(SeekBeforeBegin);
    }
    var o := hs[idx].chunkOffset as nat;
    var objectId, q := Cursor.ReadI32(d, o + 80);
    if objectId.Err? {
      return Err(EndOfStream);
    }
    if !(0 <= objectId.value < |hs|) {
      return Err(ArgumentOutOfRange);
    }
    var mesh := GetMeshData(d, hs, objectId.value);
    if mesh.Err? {
      return Err(mesh.error);
    }
    var helper := GetHelperData(d, hs, objectId.value);
    if helper.Err? {
      return Err(helper.error);
    }
    if mesh.value.None? && helper.value.None? {
      return Err(MeshOrHelperExpected);
    }
    var materialId, q1 := Cursor.ReadI32(d, o + 92);
    if materialId.Err? {
      return Err(EndOfStream);
    }
    var material: Option<MaterialData> := None;
    if materialId.value != -1 {
      if materialId.value !in mats {
        return Err(KeyNotFound);
      }
      material := Some(mats[materialId.value]);
    }
    if o + 216 > |d| {
      return Err(EndOfStream);
    }
    r := Ok(NodeData(I32(d, o + 12), materialId.value, material, I32(d, o + 84), objectId.value, mesh.value, helper.value,
                     Floats(d, o + 100, 16), Vec3At(d, o + 164), Floats(d, o + 176, 4), Vec3At(d, o + 192),
                     I32(d, o + 204), I32(d, o + 208), I32(d, o + 212)));
  }

  /** GetMeshData for chunk idx: the counts, then the vertex loop and the face loop. */
  method GetMeshData(d: seq<byte>, hs: seq<ChunkHeader>, idx: nat) returns (r: Result<Option<MeshData>>)
    requires idx < |hs|
    ensures r == MeshAt(d, hs, idx)
  {
    if hs[idx].chunkType != MeshChunk {
      return Ok(None);
    }
    if hs[idx].chunkOffset < 0 {
      return Err(SeekBeforeBegin);
    }
    var o := hs[idx].chunkOffset as nat;
    if o + 36 > |d| {
      return Err(EndOfStream);
    }
    var verticesCount := I32(d, o + 20);
    var indicesCount := I32(d, o + 28);
    if verticesCount < 0 || indicesCount < 0 {
      return Err(Overflow);
    }
    var vertices := ReadVertices(d, o + 36, verticesCount);
    if vertices.Err? {
      return Err(EndOfStream);
    }
    var faces := ReadFaces(d, o + 36 + VertexSize * verticesCount, indicesCount);
    if faces.Err? {
      return Err(EndOfStream);
    }
    r := Ok(Some(MeshData(vertices.value, faces.value)));
  }

  /** The vertex loop: n vertices of 24 bytes from start. */
  method ReadVertices(d: seq<byte>, start: nat, n: nat) returns (r: Result<seq<Float32.Vec3Bits>>)
    ensures start + VertexSize * n <= |d| ==> r == Ok(Vertices(d, start, n))
    ensures start + VertexSize * n > |d| ==> r == Err(EndOfStream)
  {
    var vs: seq<Float32.Vec3Bits> := [];
    var i := 0;
    while i < n
      invariant i <= n && |vs| == i
      invariant forall k :: 0 <= k < i ==> start + VertexSize * k + VertexSize <= |d| && vs[k] == VertexAt(d, start + VertexSize * k)
    {
      var p := start + VertexSize * i;
      if p + VertexSize > |d| {
        return Err(EndOfStream);
      }
      vs := vs + [VertexAt(d, p)];
      i := i + 1;
    }
    if start + VertexSize * n > |d| {
      return Err(EndOfStream);
    }
    assert vs == Vertices(d, start, n);
    r := Ok(vs);
  }

  /** The face loop: n faces of 20 bytes from start. */
  method ReadFaces(d: seq<byte>, start: nat, n: nat) returns (r: Result<seq<MeshFace>>)
    ensures start + FaceSize * n <= |d| ==> r == Ok(Faces(d, start, n))
    ensures start + FaceSize * n > |d| ==> r == Err(EndOfStream)
  {
    var fs: seq<MeshFace> := [];
    var i := 0;
    while i < n
      invariant i <= n && |fs| == i
      invariant forall k :: 0 <= k < i ==> start + FaceSize * k + FaceSize <= |d| && fs[k] == FaceAt(d, start + FaceSize * k)
    {
      var p := start + FaceSize * i;
      if p + FaceSize > |d| {
        return Err(EndOfStream);
      }
      fs := fs + [FaceAt(d, p)];
      i := i + 1;
    }
    if start + FaceSize * n > |d| {
      return Err(EndOfStream);
    }
    assert fs == Faces(d, start, n);
    r := Ok(fs);
  }

  /** GetHelperData for chunk idx. */
  method GetHelperData(d: seq<byte>, hs: seq<ChunkHeader>, idx: nat) returns (r: Result<Option<HelperData>>)
    requires idx < |hs|
    ensures r == HelperAt(d, hs, idx)
  {
    if hs[idx].chunkType != HelperChunk {
      return Ok(None);
    }
    if hs[idx].chunkOffset < 0 {
      return Err(SeekBeforeBegin);
    }
    var o := hs[idx].chunkOffset as nat;
    var helperType, q := Cursor.ReadI32(d, o + 16);
    var x, q1 := Cursor.ReadF32(d, q);
    var y, q2 := Cursor.ReadF32(d, q1);
    var z, q3 := Cursor.ReadF32(d, q2);
    if helperType.Err? || x.Err? || y.Err? || z.Err? {
      return Err(EndOfStream);
    }
    r := Ok(Some(HelperData(helperType.value, Float32.Vec3Bits(x.value, y.value, z.value))));
  }

  /**
   * The tree loop of Load: a top-level node joins Nodes; any other node joins the
   * Children of the first node whose chunk id is its parent id, if there is one.
   */
  method BuildTree(store: seq<NodeData>) returns (roots: seq<nat>, children: seq<seq<nat>>)
    ensures roots == Roots(store, |store|) && children == ChildrenUpTo(store, |store|)
  {
    roots := [];
    children := NoChildren(|store|);
    var k := 0;
    while k < |store|
      invariant k <= |store| && roots == Roots(store, k) && children == ChildrenUpTo(store, k)
    {
      var node := store[k];
      if node.parentId != -1 {
        var parent := FindParent(store, node.parentId);
        if parent.Some? {
          children := children[parent.value := children[parent.value] + [k]];
        }
      } else {
        roots := roots + [k];
      }
      k := k + 1;
    }
  }

  /** The inner loop of the tree build: the first node whose chunk id is id. */
  method FindParent(store: seq<NodeData>, id: int) returns (r: Option<nat>)
    ensures r == FirstFrom(store, id, 0)
  {
    var j := 0;
    while j < |store|
      invariant j <= |store| && FirstFrom(store, id, 0) == FirstFrom(store, id, j)
    {
      if store[j].chunkId == id {
        return Some(j);
      }
      j := j + 1;
    }
    return None;
  }

  /** GetControllerData over the file d and its chunk table hs. */
  method GetControllerData(d: seq<byte>, hs: seq<ChunkHeader>, idx: int, expected: int) returns (r: Result<seq<Key>>)
    ensures r == Controller(d, hs, idx, expected)
    ensures r.Ok? ==> NineParams(r.value)
  {
    if idx < 0 || idx >= |hs| {
      return Err(ArgumentOutOfRange);
    }
    if hs[idx].chunkType != ControllerChunk {
      return Err(ArgumentError);
    }
    if hs[idx].chunkOffset < 0 {
      return Err(SeekBeforeBegin);
    }
    var o := hs[idx].chunkOffset as nat;
    var controllerType, q := Cursor.ReadI32(d, o + 16);
    if controllerType.Err? {
      return Err(EndOfStream);
    }
    if controllerType.value != expected && (controllerType.value != Bezier3 && expected != Tcb3) {
      return Err(UnexpectedControllerType);
    }
    var numKeys, q1 := Cursor.ReadI32(d, q);
    var flags, q2 := Cursor.ReadI32(d, q1);
    var controllerId, q3 := Cursor.ReadI32(d, q2);
    if numKeys.Err? || flags.Err? || controllerId.Err? {
      return Err(EndOfStream);
    }
    if numKeys.value < 1 {
      return Err(UnexpectedKeyCount);
    }
    if controllerId.value != idx {
      return Err(UnexpectedControllerId);
    }
    var keys := ReadKeys(d, q3, numKeys.value, controllerType.value == Tcbq);
    if keys.Err? {
      return Err(keys.error);
    }
    r := Ok(keys.value.0);
  }

  /** The key loop of GetControllerData. */
  method ReadKeys(d: seq<byte>, start: nat, count: i32, tcbq: bool) returns (r: Result<(seq<Key>, nat)>)
    ensures r == Keys(d, start, 0, count, tcbq)
    ensures r.Ok? ==> NineParams(r.value.0)
  {
    var keys: seq<Key> := [];
    var p: nat := start;
    var i: nat := 0;
    Repeated.PrependNothing(Keys(d, p, i, count, tcbq));
    while i < count
      invariant (i <= count || i == 0) && i == |keys| && NineParams(keys)
      invariant Keys(d, start, 0, count, tcbq) == Repeated.Prepend(keys, Keys(d, p, i, count, tcbq))
      decreases count - i
    {
      if p + KeySize(tcbq) > |d| {
        return Err(EndOfStream);
      }
      var key := KeyAt(d, p, tcbq);
      Repeated.PrependStep(keys, key, Keys(d, p + KeySize(tcbq), i + 1, count, tcbq));
      keys := keys + [key];
      p := p + KeySize(tcbq);
      i := i + 1;
    }
    assert Keys(d, p, i, count, tcbq) == Ok(([], p)) && keys + [] == keys;
    r := Ok((keys, p));
  }

  /** The node loop of CloneAtTime: each top-level node retimed in turn. */
  method RetimeRoots(d: seq<byte>, hs: seq<ChunkHeader>, store: seq<NodeData>, roots: seq<nat>, ticks: int) returns (r: Result<seq<NodeData>>)
    requires forall j :: 0 <= j < |roots| ==> roots[j] < |store|
    ensures r == ClonedUpTo(d, hs, store, roots, ticks, |roots|)
  {
    var s := store;
    var k := 0;
    while k < |roots|
      invariant k <= |roots| && ClonedUpTo(d, hs, store, roots, ticks, k) == Ok(s)
    {
      var node := RetimeNode(d, hs, s[roots[k]], ticks);
      if node.Err? {
        ClonedErrStays(d, hs, store, roots, ticks, k + 1, |roots|);
        return Err(node.error);
      }
      s := s[roots[k] := node.value];
      k := k + 1;
    }
    r := Ok(s);
  }

  /** One top-level node of CloneAtTime: its position, rotation and scale controllers in turn. */
  method RetimeNode(d: seq<byte>, hs: seq<ChunkHeader>, node: NodeData, ticks: int) returns (r: Result<NodeData>)
    ensures r == Retimed(d, hs, node, ticks)
  {
    var position := node.position;
    if node.positionControllerId != -1 {
      var cd := GetControllerData(d, hs, node.positionControllerId, Tcb3);
      if cd.Err? {
        return Err(cd.error);
      }
      position := ChoosePosition(cd.value, ticks, node.position);
    }
    if node.rotationControllerId != -1 {
      var cd := GetControllerData(d, hs, node.rotationControllerId, Tcbq);
      if cd.Err? {
        return Err(cd.error);
      }
    }
    if node.scaleControllerId != -1 {
      var cd := GetControllerData(d, hs, node.scaleControllerId, Tcb3);
      if cd.Err? {
        return Err(cd.error);
      }
    }
    r := Ok(node.(position := position));
  }

  /** The position loop of CloneAtTime: from the last key down, the first that starts by ticks. */
  method ChoosePosition(keys: seq<Key>, ticks: int, position: Float32.Vec3Bits) returns (p: Float32.Vec3Bits)
    requires NineParams(keys)
    ensures p == PositionAt(keys, ticks, position)
  {
    var i := |keys|;
    while i > 0
      invariant 0 <= i <= |keys|
      invariant LastKeyAtOrBefore(keys, ticks, |keys|) == LastKeyAtOrBefore(keys, ticks, i)
    {
      if ticks >= keys[i - 1].startTicks {
        return Float32.Vec3Bits(keys[i - 1].params[0], keys[i - 1].params[1], keys[i - 1].params[2]);
      }
      i := i - 1;
    }
    return position;
  }

  // ---------------------------------------------------------------------------
  // Properties

  /** The tree a successful parse builds is the one of its node list. */
  lemma ParsedTree(d: seq<byte>)
    ensures Parse(d).Ok? ==> var c := Parse(d).value;
              c.roots == Roots(c.store, |c.store|) && c.children == ChildrenUpTo(c.store, |c.store|)
  {
  }

  /** Every top-level position names a node. */
  lemma {:induction false} RootsBelow(store: seq<NodeData>, k: nat)
    requires k <= |store|
    ensures forall j :: 0 <= j < |Roots(store, k)| ==> Roots(store, k)[j] < k
  {
    if k > 0 {
      RootsBelow(store, k - 1);
    }
  }

  /** A failed material load ends the loop: later chunks do not change the exception. */
  lemma {:induction false} MaterialsErrStays(d: seq<byte>, hs: seq<ChunkHeader>, i: nat, k: nat)
    requires i <= k <= |hs| && MaterialsUpTo(d, hs, i).Err?
    ensures MaterialsUpTo(d, hs, k) == MaterialsUpTo(d, hs, i)
    decreases k
  {
    if k > i {
      MaterialsErrStays(d, hs, i, k - 1);
    }
  }

  /** A failed node load ends the loop. */
  lemma {:induction false} NodesErrStays(d: seq<byte>, hs: seq<ChunkHeader>, mats: map<int, MaterialData>, i: nat, k: nat)
    requires i <= k <= |hs| && NodesUpTo(d, hs, mats, i).Err?
    ensures NodesUpTo(d, hs, mats, k) == NodesUpTo(d, hs, mats, i)
    decreases k
  {
    if k > i {
      NodesErrStays(d, hs, mats, i, k - 1);
    }
  }

  /** A failed retiming ends the clone. */
  lemma {:induction false} ClonedErrStays(d: seq<byte>, hs: seq<ChunkHeader>, store: seq<NodeData>, roots: seq<nat>, ticks: int, i: nat, k: nat)
    requires i <= k <= |roots| && forall j :: 0 <= j < |roots| ==> roots[j] < |store|
    requires ClonedUpTo(d, hs, store, roots, ticks, i).Err?
    ensures ClonedUpTo(d, hs, store, roots, ticks, k) == ClonedUpTo(d, hs, store, roots, ticks, i)
    decreases k
  {
    if k > i {
      ClonedErrStays(d, hs, store, roots, ticks, i, k - 1);
    }
  }

  /** The signature passes exactly when the file starts with "NCAion" and two NULs; a file of eight bytes or more fails with IOException. */
  lemma SignatureChecked(d: seq<byte>)
    ensures SignatureCheck(SignatureBytes(d), 0).Ok? <==> |d| >= 8 && d[..8] == Signature
    ensures |d| >= 8 && d[..8] != Signature ==> SignatureCheck(SignatureBytes(d), 0) == Err(WrongSignature)
  {
    var sig := SignatureBytes(d);
    SignatureFrom(sig, 0);
    if |d| >= 8 {
      assert sig == d[..8];
    }
  }

  lemma {:induction false} SignatureFrom(sig: seq<byte>, k: nat)
    requires k <= 8 && k <= |sig|
    ensures SignatureCheck(sig, k).Ok? <==> |sig| >= 8 && sig[k..8] == Signature[k..]
    ensures |sig| >= 8 ==> SignatureCheck(sig, k).Ok? || SignatureCheck(sig, k) == Err(WrongSignature)
    decreases 8 - k
  {
    if k < 8 && k < |sig| {
      SignatureFrom(sig, k + 1);
      if |sig| >= 8 {
        assert sig[k..8] == [sig[k]] + sig[k + 1..8];
        assert Signature[k..] == [Signature[k]] + Signature[k + 1..];
      }
    }
  }

  /**
   * After the signature: animation data (type 0xFFFF0001) throws InvalidOperationException,
   * any other type but 0xFFFF0000 throws IOException.
   */
  lemma FileTypeChecked(d: seq<byte>)
    requires |d| >= 12 && d[..8] == Signature
    ensures U32(d, 8) == AnimationModel ==> Parse(d) == Err(AnimationData)
    ensures U32(d, 8) != AnimationModel && U32(d, 8) != StaticModel ==> Parse(d) == Err(WrongFiletype)
    ensures Parse(d).Ok? ==> U32(d, 8) == StaticModel
  {
    SignatureChecked(d);
  }

  /**
   * The chunk table holds exactly count headers (none for a count below one), each the
   * 16 bytes after the previous, and it fails exactly when the file ends before the last.
   */
  lemma {:induction false} TableExact(d: seq<byte>, p: nat, i: nat, count: int)
    requires p <= |d| && (i <= count || i == 0)
    ensures var n := if count > i then count - i else 0;
            && (Table(d, p, i, count).Ok? <==> p + HeaderSize * n <= |d|)
            && (Table(d, p, i, count).Err? ==> Table(d, p, i, count).error == EndOfStream)
            && (Table(d, p, i, count).Ok? ==>
                  var hs := Table(d, p, i, count).value.0;
                  |hs| == n && Table(d, p, i, count).value.1 == p + HeaderSize * n &&
                  forall k :: 0 <= k < n ==> p + HeaderSize * k + HeaderSize <= |d| && hs[k] == HeaderAt(d, p + HeaderSize * k))
    decreases count - i
  {
    if i < count {
      assert HeaderSize * (count - i) == HeaderSize + HeaderSize * (count - i - 1);
      assert HeaderSize * (count - i - 1) >= 0;
    }
    if i < count && p + HeaderSize <= |d| {
      TableExact(d, p + HeaderSize, i + 1, count);
      var rest := Table(d, p + HeaderSize, i + 1, count);
      if rest.Ok? {
        var hs := Table(d, p, i, count).value.0;
        assert hs == [HeaderAt(d, p)] + rest.value.0;
        forall k | 0 <= k < count - i
          ensures hs[k] == HeaderAt(d, p + HeaderSize * k)
        {
          if k > 0 {
            assert hs[k] == rest.value.0[k - 1];
          }
        }
      }
    }
  }

  /**
   * The materials after the first k chunks: exactly the material chunks, each under its
   * chunk index (so Add never meets a key twice), each loaded from its own offset.
   */
  lemma {:induction false} MaterialsKeyed(d: seq<byte>, hs: seq<ChunkHeader>, k: nat)
    requires k <= |hs| && MaterialsUpTo(d, hs, k).Ok?
    ensures forall i :: i in MaterialsUpTo(d, hs, k).value <==> 0 <= i < k && hs[i].chunkType == MaterialChunk
    ensures forall i :: i in MaterialsUpTo(d, hs, k).value ==>
              MaterialAt(d, hs[i].chunkOffset) == Ok(MaterialsUpTo(d, hs, k).value[i])
  {
    if k > 0 {
      MaterialsKeyed(d, hs, k - 1);
    }
  }

  /** The collision float is accepted when it is +0, -0 or 1, and it marks collision when it is 1. */
  lemma CollisionFlag(c: u32)
    ensures CollisionFlagValid(c) <==> c == Float32.Zero || c == Float32.NegativeZero || c == Float32.One
    ensures Float32.Equal(c, Float32.One) <==> c == Float32.One
  {
    Float32.EqualOne(c);
    if Float32.Equal(c, Float32.Zero) {
      Float32.EqualOnlyZeroes(c);
    }
  }

  /**
   * A loaded material: its collision float was +0, -0 or 1, isCollision says it was 1, and
   * a group (type 2 with a positive count) lists that many ids; a float that is none of
   * the three makes the load throw.
   */
  lemma MaterialCollisionChecked(d: seq<byte>, offset: i32)
    requires offset >= 0 && offset as nat + FlagsAt + 8 <= |d|
    ensures var c := U32(d, offset as nat + FlagsAt + 4);
            && (!CollisionFlagValid(c) ==> MaterialAt(d, offset) == Err(CollisionFlagExpected))
            && (MaterialAt(d, offset).Ok? ==>
                  (c == Float32.Zero || c == Float32.NegativeZero || c == Float32.One)
                  && (MaterialAt(d, offset).value.isCollision <==> c == Float32.One))
    ensures MaterialAt(d, offset).Ok? && MaterialAt(d, offset).value.multiMaterialIds.Some? ==>
              MaterialAt(d, offset).value.materialType == 2 &&
              |MaterialAt(d, offset).value.multiMaterialIds.value| == I32(d, offset as nat + 148) > 0
  {
    CollisionFlag(U32(d, offset as nat + FlagsAt + 4));
  }

  /** Nodes is exactly the top-level nodes (parent -1), in their order. */
  lemma {:induction false} RootsExact(store: seq<NodeData>, k: nat)
    requires k <= |store|
    ensures forall j :: j in Roots(store, k) <==> 0 <= j < k && store[j].parentId == -1
    ensures forall a, b :: 0 <= a < b < |Roots(store, k)| ==> Roots(store, k)[a] < Roots(store, k)[b]
  {
    if k > 0 {
      RootsExact(store, k - 1);
      RootsBelow(store, k - 1);
    }
  }

  /**
   * The Children of node p are exactly the nodes whose parent id names p first, in their
   * order: a node joins the first node with its parent id, and no other.
   */
  lemma {:induction false} ChildrenExact(store: seq<NodeData>, k: nat, p: nat)
    requires k <= |store| && p < |store|
    ensures forall j :: j in ChildrenUpTo(store, k)[p] <==> 0 <= j < k && ParentOf(store, j) == Some(p)
    ensures forall a, b :: 0 <= a < b < |ChildrenUpTo(store, k)[p]| ==> ChildrenUpTo(store, k)[p][a] < ChildrenUpTo(store, k)[p][b]
  {
    if k > 0 {
      ChildrenExact(store, k - 1, p);
      var c := ChildrenUpTo(store, k - 1);
      if ParentOf(store, k - 1) == Some(p) {
        assert ChildrenUpTo(store, k)[p] == c[p] + [k - 1];
        assert forall a :: 0 <= a < |c[p]| ==> c[p][a] in c[p];
      } else {
        assert ChildrenUpTo(store, k)[p] == c[p];
      }
    }
  }

  /** A node whose parent id names no node is in neither Nodes nor any Children list: it is dropped. */
  lemma OrphanDropped(store: seq<NodeData>, j: nat)
    requires j < |store| && store[j].parentId != -1
    requires forall i :: 0 <= i < |store| ==> store[i].chunkId != store[j].parentId
    ensures j !in Roots(store, |store|)
    ensures forall p :: 0 <= p < |store| ==> j !in ChildrenUpTo(store, |store|)[p]
  {
    RootsExact(store, |store|);
    forall p | 0 <= p < |store|
      ensures j !in ChildrenUpTo(store, |store|)[p]
    {
      ChildrenExact(store, |store|, p);
    }
  }

  /** The parent a node joins carries the node's parent id, and no earlier node does. */
  lemma ParentIsFirstMatch(store: seq<NodeData>, j: nat)
    requires j < |store| && ParentOf(store, j).Some?
    ensures var p := ParentOf(store, j).value;
            store[j].parentId != -1 && store[p].chunkId == store[j].parentId &&
            forall i :: 0 <= i < p ==> store[i].chunkId != store[j].parentId
  {
  }

  /**
   * No member of a group can make it collidable: every id but -1 names a material of
   * type 0, 1 or 2, and the typed ones are not collision materials.
   */
  predicate NoCollisionMember(mats: map<int, MaterialData>, ids: seq<i32>, i: nat)
  {
    forall k :: i <= k < |ids| && ids[k] != -1 ==>
      ids[k] in mats && 0 <= mats[ids[k]].materialType <= 2 &&
      (mats[ids[k]].materialType != 0 ==> !mats[ids[k]].isCollision)
  }

  /** A material found not collidable is no collision material, and neither is any member of its group. */
  lemma CollidableFalse(mats: map<int, MaterialData>, m: MaterialData, fuel: nat)
    requires MaterialCollidable(mats, m, fuel) == Ok(false)
    ensures !m.isCollision
    ensures m.multiMaterialIds.Some? ==> NoCollisionMember(mats, m.multiMaterialIds.value, 0)
  {
    if m.multiMaterialIds.Some? {
      GroupFalse(mats, m.multiMaterialIds.value, 0, fuel);
    }
  }

  lemma {:induction false} GroupFalse(mats: map<int, MaterialData>, ids: seq<i32>, i: nat, fuel: nat)
    requires i <= |ids| && GroupCollidable(mats, ids, i, fuel) == Ok(false)
    ensures NoCollisionMember(mats, ids, i)
    decreases |ids| - i
  {
    if i < |ids| {
      GroupFalse(mats, ids, i + 1, fuel);
    }
  }

  /** The fuel only matters when it runs out: an answer with some fuel is the answer with more. */
  lemma {:induction false} MoreFuelSameAnswer(mats: map<int, MaterialData>, m: MaterialData, fuel: nat)
    requires MaterialCollidable(mats, m, fuel).Ok?
    ensures MaterialCollidable(mats, m, fuel + 1) == MaterialCollidable(mats, m, fuel)
    decreases fuel, 1, 0
  {
    if !m.isCollision && m.multiMaterialIds.Some? {
      GroupMoreFuel(mats, m.multiMaterialIds.value, 0, fuel);
    }
  }

  lemma {:induction false} GroupMoreFuel(mats: map<int, MaterialData>, ids: seq<i32>, i: nat, fuel: nat)
    requires i <= |ids| && GroupCollidable(mats, ids, i, fuel).Ok?
    ensures GroupCollidable(mats, ids, i, fuel + 1) == GroupCollidable(mats, ids, i, fuel)
    decreases fuel, 0, |ids| - i
  {
    if i < |ids| {
      if ids[i] == -1 {
        GroupMoreFuel(mats, ids, i + 1, fuel);
      } else if ids[i] in mats {
        var m := mats[ids[i]];
        if m.materialType == 0 {
          GroupMoreFuel(mats, ids, i + 1, fuel);
        } else if m.materialType == 2 {
          MoreFuelSameAnswer(mats, m, fuel - 1);
          if !(MaterialCollidable(mats, m, fuel - 1).value || m.isCollision) {
            GroupMoreFuel(mats, ids, i + 1, fuel);
          }
        } else if m.materialType == 1 && !m.isCollision {
          GroupMoreFuel(mats, ids, i + 1, fuel);
        }
      }
    }
  }

  /** A node without a material is never collidable. */
  lemma NoMaterialNoCollision(h: Loader, node: NodeData, fuel: nat)
    requires node.material.None?
    ensures h.IsNodeCollidable(node, fuel) == Ok(false)
  {
  }

  /**
   * The controller type test as written: for TCB3 it accepts every type; for TCBQ it
   * accepts exactly TCBQ and BEZIER3.
   */
  lemma ControllerTypeTest(controllerType: int)
    ensures !TypeRejected(controllerType, Tcb3)
    ensures !TypeRejected(controllerType, Tcbq) <==> controllerType == Tcbq || controllerType == Bezier3
  {
  }

  /** The key loop reads count keys back to back (none for a count below one). */
  lemma {:induction false} KeysExact(d: seq<byte>, p: nat, i: nat, count: int, tcbq: bool)
    requires Keys(d, p, i, count, tcbq).Ok?
    ensures var keys := Keys(d, p, i, count, tcbq).value.0;
            |keys| == (if count > i then count - i else 0) &&
            forall k :: 0 <= k < |keys| ==> p + KeySize(tcbq) * k + KeySize(tcbq) <= |d| && keys[k] == KeyAt(d, p + KeySize(tcbq) * k, tcbq)
    decreases count - i
  {
    if i < count {
      KeysExact(d, p + KeySize(tcbq), i + 1, count, tcbq);
      var keys := Keys(d, p, i, count, tcbq).value.0;
      var rest := Keys(d, p + KeySize(tcbq), i + 1, count, tcbq).value.0;
      assert keys == [KeyAt(d, p, tcbq)] + rest;
      forall k | 0 <= k < |keys|
        ensures p + KeySize(tcbq) * k + KeySize(tcbq) <= |d| && keys[k] == KeyAt(d, p + KeySize(tcbq) * k, tcbq)
      {
        if k > 0 {
          assert keys[k] == rest[k - 1];
          assert KeySize(tcbq) * k == KeySize(tcbq) + KeySize(tcbq) * (k - 1);
        }
      }
    }
  }

  /**
   * A controller read succeeds only on a controller chunk whose stored id is its own index
   * and whose key count is at least one; it returns that many keys, each with a ninth
   * parameter read only for a TCBQ controller.
   */
  lemma ControllerChecked(d: seq<byte>, hs: seq<ChunkHeader>, idx: int, expected: int)
    requires Controller(d, hs, idx, expected).Ok?
    ensures 0 <= idx < |hs| && hs[idx].chunkType == ControllerChunk && hs[idx].chunkOffset >= 0
    ensures var o := hs[idx].chunkOffset as nat;
            o + 32 <= |d| && I32(d, o + 20) >= 1 && I32(d, o + 28) == idx &&
            |Controller(d, hs, idx, expected).value| == I32(d, o + 20) &&
            forall k :: 0 <= k < I32(d, o + 20) ==>
              o + 32 + KeySize(I32(d, o + 16) == Tcbq) * k + KeySize(I32(d, o + 16) == Tcbq) <= |d| &&
              Controller(d, hs, idx, expected).value[k] == KeyAt(d, o + 32 + KeySize(I32(d, o + 16) == Tcbq) * k, I32(d, o + 16) == Tcbq)
  {
    var o := hs[idx].chunkOffset as nat;
    KeysExact(d, o + 32, 0, I32(d, o + 20), I32(d, o + 16) == Tcbq);
  }

  /**
   * A retimed node differs from the node only in its position: unchanged without a
   * position controller, otherwise the position of its last key that starts by ticks.
   */
  lemma RetimedPosition(d: seq<byte>, hs: seq<ChunkHeader>, node: NodeData, ticks: int)
    requires Retimed(d, hs, node, ticks).Ok?
    ensures var n := Retimed(d, hs, node, ticks).value;
            && n == node.(position := n.position)
            && (node.positionControllerId == -1 ==> n.position == node.position)
            && (node.positionControllerId != -1 ==>
                  Controller(d, hs, node.positionControllerId, Tcb3).Ok? &&
                  n.position == PositionAt(Controller(d, hs, node.positionControllerId, Tcb3).value, ticks, node.position))
  {
  }

  /** Positions listed in increasing order, as Roots lists them. */
  predicate Increasing(xs: seq<nat>)
  {
    forall a, b :: 0 <= a < b < |xs| ==> xs[a] < xs[b]
  }

  /** After the first k top-level nodes: exactly those are retimed, every other node is as loaded. */
  lemma {:induction false} ClonedShape(d: seq<byte>, hs: seq<ChunkHeader>, store: seq<NodeData>, roots: seq<nat>, ticks: int, k: nat)
    requires k <= |roots| && (forall j :: 0 <= j < |roots| ==> roots[j] < |store|) && Increasing(roots)
    requires ClonedUpTo(d, hs, store, roots, ticks, k).Ok?
    ensures var s := ClonedUpTo(d, hs, store, roots, ticks, k).value;
            forall j :: 0 <= j < |store| ==>
              (j in roots[..k] ==> Retimed(d, hs, store[j], ticks) == Ok(s[j])) &&
              (j !in roots[..k] ==> s[j] == store[j])
  {
    if k > 0 {
      ClonedShape(d, hs, store, roots, ticks, k - 1);
      assert roots[..k] == roots[..k - 1] + [roots[k - 1]];
      assert roots[k - 1] !in roots[..k - 1];
    }
  }

  /**
   * CloneAtTime retimes exactly the top-level nodes (parent -1): a child node keeps the
   * position it was loaded with, whatever its controllers say.
   */
  lemma CloneRetimesTopLevelOnly(d: seq<byte>, ticks: int)
    requires Clone(d, ticks).Ok?
    ensures Parse(d).Ok?
    ensures var c := Parse(d).value;
            |Clone(d, ticks).value| == |c.store| &&
            forall j :: 0 <= j < |c.store| ==>
              (c.store[j].parentId == -1 ==> Retimed(d, c.headers, c.store[j], ticks) == Ok(Clone(d, ticks).value[j])) &&
              (c.store[j].parentId != -1 ==> Clone(d, ticks).value[j] == c.store[j])
  {
    var c := Parse(d).value;
    ParsedTree(d);
    RootsExact(c.store, |c.store|);
    RootsBelow(c.store, |c.store|);
    assert c.roots[..|c.roots|] == c.roots;
    ClonedShape(d, c.headers, c.store, c.roots, ticks, |c.roots|);
  }
}
