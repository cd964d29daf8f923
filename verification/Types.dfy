/**
 The values the orchestrator replicates: cluster configuration, nodes,
 allocations, secrets and volumes, together with the commands that change them.

 CPU is a real number (rounding of `f64` is not modelled), memory is a number of
 bytes, times are seconds.
 */
module Types {

  datatype Option<+T> = None | Some(value: T)

  datatype Result<+T, +E> = Ok(value: T) | Err(error: E)

  /** Raft-level node number. */
  type RaftId = nat
  /** Cluster-level node name. */
  datatype NodeId = NodeId(name: string)
  datatype AllocId = AllocId(name: string)
  type Time = nat

  /** One past the largest value of the 64-bit and 32-bit unsigned types. */
  const U64: nat := 0x1_0000_0000_0000_0000
  const U32: nat := 0x1_0000_0000

  newtype byte = x: int | 0 <= x < 256

  type Bytes = seq<byte>

  /** A serialisation: it may reject a value, and parsing may reject bytes. */
  datatype Codec<!T> = Codec(encode: T -> Option<Bytes>, decode: Bytes -> Option<T>)

  /** What a successful encoding produced decodes to the encoded value. */
  ghost predicate Lawful<T(!new)>(codec: Codec<T>) {
    forall v :: codec.encode(v).Some? ==> codec.decode(codec.encode(v).value) == Some(v)
  }

  datatype IpAddr = V4(bits: nat) | V6(bits: nat)
  datatype SocketAddr = SocketAddr(ip: IpAddr, port: nat)

  datatype Resources = Resources(cpu: real, memory: nat)

  datatype NodeResources = NodeResources(
    cpuTotal: real, cpuAvailable: real, memoryTotal: nat, memoryAvailable: nat)

  datatype NodeStatus = Ready | Draining | Down

  datatype AllocKind = Service | Task

  datatype AllocStatus =
    | Pulling
    | Starting
    | Running
    | Healthy
    | Stopped(exitCode: int)
    | Failed(reason: string)
  {
    /** Running or Healthy: actively serving traffic. */
    predicate IsActive() { Running? || Healthy? }

    /** Stopped or Failed: will not run again. */
    predicate IsTerminal() { Stopped? || Failed? }
  }

  datatype Alloc = Alloc(
    id: AllocId, node: NodeId, name: string, kind: AllocKind, status: AllocStatus,
    address: Option<SocketAddr>, resources: Resources, startedAt: Option<Time>)

  datatype VolumeState = Unattached | Attached(node: NodeId)

  datatype FsmVolume = FsmVolume(cloudId: string, state: VolumeState)

  datatype EncryptedSecret = EncryptedSecret(encryptedValue: Bytes, nonce: Bytes)

  datatype FsmNode = FsmNode(
    raftId: RaftId, millId: NodeId, address: SocketAddr, resources: NodeResources,
    status: NodeStatus, wireguardPubkey: Option<string>, instanceId: Option<string>,
    rpcAddress: Option<SocketAddr>, advertiseAddr: Option<string>)

  /** A segment of an interpolated environment value. */
  datatype EnvPart =
    | LiteralPart(text: string)
    | ServiceAddress(service: string)
    | Secret(name: string)

  datatype EnvValue = Literal(text: string) | Interpolated(parts: seq<EnvPart>)

  datatype RouteDef = RouteDef(hostname: string, path: string, websocket: bool)

  datatype VolumeDef = VolumeDef(name: string, ephemeral: bool)

  datatype ServiceDef = ServiceDef(
    image: string, replicas: nat, resources: Resources, env: map<string, EnvValue>,
    routes: seq<RouteDef>, volumes: seq<VolumeDef>)

  datatype TaskDef = TaskDef(image: string, resources: Resources, env: map<string, EnvValue>)

  datatype ClusterConfig = ClusterConfig(
    services: map<string, ServiceDef>, tasks: map<string, TaskDef>)

  datatype FsmState = FsmState(
    config: Option<ClusterConfig>, nodes: map<RaftId, FsmNode>, allocs: map<AllocId, Alloc>,
    secrets: map<string, EncryptedSecret>, volumes: map<string, FsmVolume>)

  function InitialState(): FsmState {
    FsmState(None, map[], map[], map[], map[])
  }

  datatype Command =
    | Deploy(config: ClusterConfig)
    | NodeRegister(
        id: RaftId, millId: NodeId, address: SocketAddr, resources: NodeResources,
        wireguardPubkey: Option<string>, instanceId: Option<string>,
        rpcAddress: Option<SocketAddr>, advertiseAddr: Option<string>)
    | NodeHeartbeat(id: RaftId, statuses: map<AllocId, AllocStatus>)
    | NodeDown(id: RaftId)
    | AllocScheduled(
        allocId: AllocId, nodeId: RaftId, name: string, kind: AllocKind,
        allocAddress: Option<SocketAddr>, need: Resources)
    | SetAllocStatus(allocId: AllocId, status: AllocStatus)
    | AllocRunning(allocId: AllocId, allocAddress: Option<SocketAddr>, startedAt: Option<Time>)
    | SecretSet(name: string, secret: EncryptedSecret)
    | SecretDelete(name: string)
    | VolumeCreated(name: string, cloudId: string)
    | VolumeAttached(name: string, nodeId: RaftId)
    | VolumeDetached(name: string)
    | VolumeDestroyed(name: string)
    | NodeDrain(id: RaftId)
    | NodeRemove(id: RaftId)

  /** Why a command was rejected; stands for the text of the source's error responses. */
  datatype Rejection =
    | UnknownNode(node: RaftId)
    | UnknownAlloc(alloc: AllocId)
    | UnknownSecret(secret: string)
    | UnknownVolume(volume: string)
    | NodeBusy(node: RaftId)

  datatype Response = Accepted | Rejected(why: Rejection)

  /** The configured services; none before the first deploy. */
  function ServicesOf(config: Option<ClusterConfig>): map<string, ServiceDef> {
    if config.Some? then config.value.services else map[]
  }
}
