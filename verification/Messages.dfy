/** The protocol's messages. Texts are their UTF-8 bytes; `f32` values are their four raw bytes. */
module Messages {
  import opened Prelude

  type U64 = n: int | 0 <= n < 0x1_0000_0000_0000_0000

  datatype Metrics = Metrics(memoryUsage: U64, cpuUsage: Bytes, uptime: U64, functionCalls: U64)

  datatype Config = Config(memoryLimit: U64, cpuTimeLimit: U64, env: seq<(Bytes, Bytes)>, args: seq<Bytes>)

  datatype ClientMessage =
    | Heartbeat
    | EnrollmentRequest
    | PublicKey(key: Bytes)
    | EnrollmentAcknowledgment
    | ApplicationStatus(appId: Bytes, status: nat, error: Option<Bytes>, metrics: Option<Metrics>)
    | DeployAck(appId: Bytes, success: bool, error: Option<Bytes>)
    | StopAck(appId: Bytes, success: bool, error: Option<Bytes>)
    | DeviceInfo(memory: U64, arch: Bytes, features: seq<Bytes>, maxAppSize: U64)
    | ChallengeResponse(signature: Bytes)

  datatype ServerMessage =
    | HeartbeatAck
    | EnrollmentAccepted
    | EnrollmentRejected(reason: Bytes)
    | DeviceUuid(uuid: Bytes)
    | EnrollmentCompleted
    | DeployApplication(appId: Bytes, name: Bytes, moduleHash: Bytes, wasm: Bytes, config: Option<Config>)
    | StopApplication(appId: Bytes)
    | RequestDeviceInfo
    | RequestApplicationStatus(which: Option<Bytes>)
    | Challenge(nonce: Bytes)

  /** Two of the application states a status message carries. */
  const RUNNING: Byte := 1
  const STOPPED: Byte := 2

  /** The bytes of an ASCII literal, one per character. */
  function Ascii(s: string): (b: Bytes)
    ensures |b| == |s|
  {
    seq(|s|, i requires 0 <= i < |s| => Low(s[i]))
  }

  function Low(c: char): Byte { c as int % 256 }
}
