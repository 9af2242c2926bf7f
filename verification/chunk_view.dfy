/** The read-only view of chunk metadata that the eviction policy consumes.
    Chunks are owned by the memory manager; the policy only looks at where a
    chunk lives, what state it is in, whether it is pinned and how many bytes
    evicting it frees. */
module ChunkView {

  datatype Option<T> = None | Some(value: T)

  /** A placement domain for chunk payloads, such as a particular GPU or the
      host. Eviction compares devices by `kind` only, while the access trace
      is keyed by the whole device. */
  datatype Device = Device(kind: string, index: Option<nat>)

  /** Life-cycle state of a chunk. The policy singles out `Compute` (in use
      by the running operator) and `Released` (payload already freed); every
      other state counts as movable. */
  datatype ChunkState = Free | Compute | Hold | HoldAfterFwd | HoldAfterBwd | Released

  /** What `get_device()`, `get_state()`, `is_pin()` and
      `get_payload_space()` report for one chunk. */
  datatype Chunk = Chunk(device: Option<Device>, state: ChunkState, pinned: bool, payloadSpace: nat)
}
