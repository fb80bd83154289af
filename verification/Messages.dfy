/** Requests and responses: the messages the ranks of a process set exchange. */
module Messages {

  datatype Option<+T> = None | Some(value: T)

  /** Device number that stands for the CPU; any other number is a GPU. */
  const CPU_DEVICE_ID: int := -1

  datatype DataType =
    | UInt8 | Int8 | UInt16 | Int16 | Int32 | Int64 | Float16 | Float32 | Float64 | Bool

  /** Bytes per element. */
  function TypeSize(t: DataType): (n: nat)
    ensures n == 1 || n == 2 || n == 4 || n == 8
    ensures n == 1 <==> t in {UInt8, Int8, Bool}
    ensures n == 2 <==> t in {UInt16, Int16, Float16}
    ensures n == 8 <==> t in {Int64, Float64}
  {
    match t
    case UInt8 => 1
    case Int8 => 1
    case UInt16 => 2
    case Int16 => 2
    case Int32 => 4
    case Int64 => 8
    case Float16 => 2
    case Float32 => 4
    case Float64 => 8
    case Bool => 1
  }

  /** The collectives a rank can ask for (JOIN is not part of this model). */
  datatype Op = Allreduce | Allgather | Broadcast | Adasum | Alltoall

  predicate IsReduction(op: Op) { op == Allreduce || op == Adasum }
  predicate IsGather(op: Op) { op == Allgather || op == Alltoall }

  /** What one rank wants to do with one named tensor. */
  datatype Request = Request(
    rank: nat,
    op: Op,
    dtype: DataType,
    name: string,
    root: int,
    device: int,
    shape: seq<nat>,
    prescale: real,
    postscale: real)

  /** Either a collective to run or an error to report. */
  datatype ResponseType = Run(op: Op) | Error

  datatype Response = Response(
    rtype: ResponseType,
    names: seq<string>,
    dtype: DataType,
    devices: seq<int>,
    sizes: seq<nat>,
    prescale: real,
    postscale: real)

  datatype ResponseList = ResponseList(responses: seq<Response>, shutdown: bool)

  /** The local properties of a tensor that a cache entry remembers; also what a
      tensor table entry knows about its tensor. */
  datatype Params = Params(device: int, dtype: DataType, shape: seq<nat>)

  function ParamsOf(q: Request): Params {
    Params(q.device, q.dtype, q.shape)
  }

  /** The name of an unfused response. */
  function NameOf(r: Response): string {
    if r.names == [] then "" else r.names[0]
  }

  function Product(dims: seq<nat>): nat {
    if dims == [] then 1 else Product(dims[..|dims| - 1]) * dims[|dims| - 1]
  }

  function Sum(xs: seq<nat>): nat {
    if xs == [] then 0 else Sum(xs[..|xs| - 1]) + xs[|xs| - 1]
  }
}
