/** The relational store. Each service call takes a `Database`, as each one takes a session in the source;
    a table keyed by a unique column is a map, any other table the sequence of its rows. */
module Store {
  import opened Prelude

  datatype Uuid = Uuid(value: int)
  type UserId = Uuid
  type NodeId = string

  /** Microseconds, the resolution of the source's timestamps. */
  type Time = int

  const SECOND: Time := 1_000_000
  const MINUTE: Time := 60 * SECOND
  const HOUR: Time := 60 * MINUTE
  const DAY: Time := 24 * HOUR

  datatype Code = Code(code: string, expires: Time)

  datatype User = User(name: string, hash: Option<string>, confirmed: bool, confirm: Option<Code>, reset: Option<Code>)

  datatype RefreshRow = RefreshRow(user: UserId, expires: Time, revoked: Option<Time>)

  datatype Config = Config(version: Option<string>, payload: map<string, Json>)

  datatype ChallengeStatus = Pending | Completed | Expired

  /** A row of `mapping_challenges`, keyed by its request id. */
  datatype Challenge = Challenge(
    user: UserId, node: NodeId, secret: Option<string>, challenge: Option<string>,
    status: ChallengeStatus, expires: Time, completedAt: Option<Time>)

  datatype Mapping = Mapping(user: UserId, node: NodeId)

  datatype RequestStatus = Waiting | Accepted | Declined | Lapsed

  datatype Request = Request(node: NodeId, from: UserId, toName: string, status: RequestStatus, expires: Time)

  datatype Share = Share(node: NodeId, from: UserId, to: UserId)

  datatype Group = Group(owner: UserId, parent: Option<Uuid>, name: string)

  datatype Member = Member(group: Uuid, node: NodeId)

  datatype ClaimMode = SelfClaim(authId: string, nonce: string) | Assisted(user: UserId)

  /** A row of `claim_challenges`; it is pending until it is verified. */
  datatype Claim = Claim(mac: string, node: NodeId, mode: ClaimMode, verified: bool, expires: Time)

  datatype Certificate = Certificate(serial: string, node: NodeId, cn: string, revoked: bool)

  datatype Image = Image(ready: bool, key: string, fwVersion: string)

  datatype Job = Job(image: Uuid, active: bool)

  datatype JobNode = JobNode(job: Uuid, node: NodeId, status: string, created: Time)

  datatype TsRow = TsRow(
    ts: int, node: NodeId, device: string, param: string, dataType: string,
    vInt: Option<int>, vFloat: Option<real>, vBool: Option<bool>, vStr: Option<string>)

  class Database {
    var users: map<UserId, User>
    var refreshTokens: map<string, RefreshRow>
    var nodes: set<NodeId>
    var configs: map<NodeId, Config>
    var shadows: map<NodeId, map<string, Json>>
    var challenges: map<string, Challenge>
    var mappings: seq<Mapping>
    var requests: map<Uuid, Request>
    var shares: seq<Share>
    var groups: map<Uuid, Group>
    var members: set<Member>
    var provisioning: map<string, string>
    var claims: map<Uuid, Claim>
    var certificates: seq<Certificate>
    var images: map<Uuid, Image>
    var jobs: map<Uuid, Job>
    var jobNodes: seq<JobNode>
    var tsdata: seq<TsRow>
  }
}
