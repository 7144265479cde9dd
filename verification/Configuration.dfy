/** Session configurations and the checks made while they are read, one per line of the response file. */
module Configuration {
  import opened Arithmetic

  datatype Mode = Client | Server
  datatype Verify = VerifyNone | VerifyFirst | VerifyAll
  datatype Direction = Rx | Tx | Both
  datatype Policy = WaitForPeer | SendComplete | ReceiveComplete
  datatype Protocol = Udp | Tcp

  datatype Config = Config(
    mode: Mode,
    verify: Verify,
    direction: Direction,
    endpoint: string,
    sendBandwidth: nat,
    receiveBandwidth: nat,
    frequency: nat,
    windows: nat,
    size: nat,
    packetLow: nat,
    packetHigh: nat,
    margin: Option<nat>, // in nanoseconds; None is the special value "infinity"
    policy: Policy,
    protocol: Protocol)

  predicate Consistent(size: nat, frequency: nat, direction: Direction, policy: Policy) {
    && size > 0
    && frequency > 0
    && !(direction.Tx? && policy.ReceiveComplete?)
    && !(direction.Rx? && policy.SendComplete?)
  }

  /** What a configuration that passed every check satisfies. */
  ghost predicate Accepted(c: Config) {
    Consistent(c.size, c.frequency, c.direction, c.policy)
  }

  /** Sizes are unsigned 64-bit words in the source. */
  ghost predicate InRange(c: Config) {
    && c.size < WORD
    && c.sendBandwidth < WORD
    && c.receiveBandwidth < WORD
  }

  /** The options present on one line; the option parser itself is not part of this model. */
  datatype Arguments = Arguments(
    connect: Option<string>,
    listen: Option<string>,
    size: Option<nat>,
    protocol: Option<Protocol>,
    sendBandwidth: Option<nat>,
    receiveBandwidth: Option<nat>,
    frequency: Option<nat>,
    verify: Option<Verify>,
    direction: Option<Direction>,
    windows: Option<nat>,
    margin: Option<nat>,
    packet: Option<(nat, nat)>,
    policy: Option<Policy>)

  datatype Rejection =
    | ConnectAndListen
    | InvalidFrequency
    | SizeRequired
    | TxWithReceiveComplete
    | RxWithSendComplete
    | NoEndpoint

  const DEFAULT_BANDWIDTH: nat := 128 * 1000 * 1000
  const DEFAULT_FREQUENCY: nat := 1000
  const DEFAULT_PACKET: nat := 65536 - 64

  function GetOr<T>(o: Option<T>, default: T): T {
    match o
    case Some(v) => v
    case None => default
  }

  /** Why a line is refused, if it is. Only the line itself matters. */
  function Refusal(a: Arguments): Option<Rejection> {
    if a.connect.Some? && a.listen.Some? then Some(ConnectAndListen)
    else if a.frequency == Some(0) then Some(InvalidFrequency)
    else if a.size == None || a.size == Some(0) then Some(SizeRequired)
    else if a.direction == Some(Tx) && a.policy == Some(ReceiveComplete) then Some(TxWithReceiveComplete)
    else if a.direction == Some(Rx) && (a.policy == None || a.policy == Some(SendComplete))
    then Some(RxWithSendComplete)
    else if a.connect == None && a.listen == None then Some(NoEndpoint)
    else None
  }

  /** The configuration a line stands for on its own, whatever was read before it. */
  function Meaning(a: Arguments): Config
    requires Refusal(a) == None
  {
    Config(
      if a.connect.Some? then Client else Server,
      GetOr(a.verify, VerifyNone),
      GetOr(a.direction, Both),
      if a.connect.Some? then a.connect.value else a.listen.value,
      GetOr(a.sendBandwidth, DEFAULT_BANDWIDTH),
      GetOr(a.receiveBandwidth, DEFAULT_BANDWIDTH),
      GetOr(a.frequency, DEFAULT_FREQUENCY),
      GetOr(a.windows, 0),
      a.size.value,
      GetOr(a.packet, (DEFAULT_PACKET, DEFAULT_PACKET)).0,
      GetOr(a.packet, (DEFAULT_PACKET, DEFAULT_PACKET)).1,
      a.margin,
      GetOr(a.policy, SendComplete),
      GetOr(a.protocol, Tcp))
  }

  /** The checks let through exactly one end point and a size, with consistent values once defaults are filled in. */
  lemma RefusalExact(a: Arguments)
    ensures Refusal(a) == None <==>
            && a.connect.Some? != a.listen.Some?
            && a.size.Some?
            && Consistent(a.size.value, GetOr(a.frequency, DEFAULT_FREQUENCY),
                          GetOr(a.direction, Both), GetOr(a.policy, SendComplete))
    ensures Refusal(a) == None ==> Accepted(Meaning(a))
  {
  }

  /** What is wrong with a line, in terms of the values it ends up with, whatever else is wrong with it. */
  ghost predicate Violates(a: Arguments, r: Rejection) {
    match r
    case ConnectAndListen => a.connect.Some? && a.listen.Some?
    case InvalidFrequency => GetOr(a.frequency, DEFAULT_FREQUENCY) == 0
    case SizeRequired => GetOr(a.size, 0) == 0
    case TxWithReceiveComplete => GetOr(a.direction, Both).Tx? && GetOr(a.policy, SendComplete).ReceiveComplete?
    case RxWithSendComplete => GetOr(a.direction, Both).Rx? && GetOr(a.policy, SendComplete).SendComplete?
    case NoEndpoint => a.connect.None? && a.listen.None?
  }

  /** The order in which a line is checked. */
  function Rank(r: Rejection): nat {
    match r
    case ConnectAndListen => 0
    case InvalidFrequency => 1
    case SizeRequired => 2
    case TxWithReceiveComplete => 3
    case RxWithSendComplete => 4
    case NoEndpoint => 5
  }

  /** A line is refused for the first of the things that are wrong with it. */
  lemma RefusalIsFirstViolated(a: Arguments, r: Rejection)
    ensures Refusal(a) == Some(r) <==> Violates(a, r) && forall q :: Violates(a, q) ==> Rank(r) <= Rank(q)
  {
    if Refusal(a).Some? {
      assert Violates(a, Refusal(a).value);
    }
  }

  /** The line that gives every option of a configuration. */
  function LineOf(c: Config): Arguments {
    Arguments(
      if c.mode.Client? then Some(c.endpoint) else None,
      if c.mode.Server? then Some(c.endpoint) else None,
      Some(c.size), Some(c.protocol), Some(c.sendBandwidth), Some(c.receiveBandwidth), Some(c.frequency),
      Some(c.verify), Some(c.direction), Some(c.windows), c.margin, Some((c.packetLow, c.packetHigh)), Some(c.policy))
  }

  /** Every acceptable configuration can be given, and reads back as itself. */
  lemma LineRoundTrip(c: Config)
    requires Accepted(c)
    ensures Refusal(LineOf(c)) == None && Meaning(LineOf(c)) == c
  {
    RefusalExact(LineOf(c));
  }

  /** b spells out, with the documented default, what a leaves out. */
  ghost predicate GivesDefaults(a: Arguments, b: Arguments) {
    && b.sendBandwidth == Some(GetOr(a.sendBandwidth, 128_000_000))
    && b.receiveBandwidth == Some(GetOr(a.receiveBandwidth, 128_000_000))
    && b.frequency == Some(GetOr(a.frequency, 1000))
    && b.verify == Some(GetOr(a.verify, VerifyNone))
    && b.direction == Some(GetOr(a.direction, Both))
    && b.windows == Some(GetOr(a.windows, 0))
    && b.packet == Some(GetOr(a.packet, (65472, 65472)))
    && b.policy == Some(GetOr(a.policy, SendComplete))
    && b.protocol == Some(GetOr(a.protocol, Tcp))
  }

  ghost predicate SameChoices(a: Arguments, b: Arguments) {
    b.connect == a.connect && b.listen == a.listen && b.size == a.size && b.margin == a.margin
  }

  /** An option left out is as good as given with its documented default, for the checks and for the meaning. */
  lemma OmittedMeansDefault(a: Arguments, b: Arguments)
    requires SameChoices(a, b) && GivesDefaults(a, b)
    ensures Refusal(b) == Refusal(a)
    ensures Refusal(a) == None ==> Meaning(b) == Meaning(a)
  {
  }

  /** The configuration object that the source shares between lines and overwrites for each of them. */
  class Reader {
    var c: Config

    constructor (initial: Config)
      ensures c == initial
    {
      c := initial;
    }

    /** Stores the values of the line, or the defaults, into the shared object. */
    method Notify(a: Arguments)
      modifies this
      ensures c == old(c).(
        verify := GetOr(a.verify, VerifyNone),
        direction := GetOr(a.direction, Both),
        endpoint := GetOr(a.listen, GetOr(a.connect, old(c).endpoint)),
        sendBandwidth := GetOr(a.sendBandwidth, DEFAULT_BANDWIDTH),
        receiveBandwidth := GetOr(a.receiveBandwidth, DEFAULT_BANDWIDTH),
        frequency := GetOr(a.frequency, DEFAULT_FREQUENCY),
        windows := GetOr(a.windows, 0),
        size := GetOr(a.size, old(c).size),
        packetLow := GetOr(a.packet, (DEFAULT_PACKET, DEFAULT_PACKET)).0,
        packetHigh := GetOr(a.packet, (DEFAULT_PACKET, DEFAULT_PACKET)).1,
        margin := a.margin,
        policy := GetOr(a.policy, SendComplete),
        protocol := GetOr(a.protocol, Tcp))
    {
      // The two endpoint options write the same field, in alphabetical order.
      if a.connect.Some? {
        c := c.(endpoint := a.connect.value);
      }
      if a.listen.Some? {
        c := c.(endpoint := a.listen.value);
      }
      if a.size.Some? {
        c := c.(size := a.size.value);
      }
      c := c.(sendBandwidth := GetOr(a.sendBandwidth, DEFAULT_BANDWIDTH),
              receiveBandwidth := GetOr(a.receiveBandwidth, DEFAULT_BANDWIDTH),
              frequency := GetOr(a.frequency, DEFAULT_FREQUENCY));
      c := c.(verify := GetOr(a.verify, VerifyNone),
              direction := GetOr(a.direction, Both),
              windows := GetOr(a.windows, 0),
              margin := a.margin);
      var packet := GetOr(a.packet, (DEFAULT_PACKET, DEFAULT_PACKET));
      c := c.(packetLow := packet.0, packetHigh := packet.1,
              policy := GetOr(a.policy, SendComplete),
              protocol := GetOr(a.protocol, Tcp));
    }

    /** One line: the outcome and the object left behind do not depend on what the object held before. */
    method FillLine(a: Arguments) returns (refused: Option<Rejection>)
      modifies this
      ensures refused == Refusal(a)
      ensures refused == None ==> c == Meaning(a)
    {
      Notify(a);
      if a.connect.Some? && a.listen.Some? {
        return Some(ConnectAndListen);
      }
      if c.frequency == 0 {
        return Some(InvalidFrequency);
      }
      if a.size == None || a.size.value == 0 {
        return Some(SizeRequired);
      }
      if c.direction.Tx? && c.policy.ReceiveComplete? {
        return Some(TxWithReceiveComplete);
      }
      if c.direction.Rx? && c.policy.SendComplete? {
        return Some(RxWithSendComplete);
      }
      if a.connect.Some? {
        c := c.(mode := Client);
      } else if a.listen.Some? {
        c := c.(mode := Server);
      } else {
        return Some(NoEndpoint);
      }
      return None;
    }

    /**
     * The whole file: each accepted session is what its own line says, although one object is
     * reused and is left moved-from after every line; the first bad line refuses the file.
     */
    method FillFile(lines: seq<Arguments>) returns (r: Result<seq<Config>, Rejection>)
      modifies this
      ensures r.Ok? <==> forall k :: 0 <= k < |lines| ==> Refusal(lines[k]) == None
      ensures r.Ok? ==> |r.value| == |lines|
                        && forall k :: 0 <= k < |lines| ==> r.value[k] == Meaning(lines[k]) && Accepted(r.value[k])
      ensures r.Ok? ==> forall k :: 0 <= k < |lines| ==>
                (r.value[k].mode.Client? <==> lines[k].connect.Some?)
                && Some(r.value[k].endpoint) == (if lines[k].connect.Some? then lines[k].connect else lines[k].listen)
      ensures r.Err? ==> exists k :: 0 <= k < |lines| && Refusal(lines[k]) == Some(r.error)
                                     && forall j :: 0 <= j < k ==> Refusal(lines[j]) == None
    {
      var configurations: seq<Config> := [];
      for i := 0 to |lines|
        invariant |configurations| == i
        invariant forall k :: 0 <= k < i ==> Refusal(lines[k]) == None && configurations[k] == Meaning(lines[k])
      {
        var refused := FillLine(lines[i]);
        if refused.Some? {
          return Err(refused.value);
        }
        configurations := configurations + [c];
        // Moving the object out leaves its text in an unspecified state.
        var leftover: string := *;
        c := c.(endpoint := leftover);
      }
      forall k | 0 <= k < |lines| ensures Accepted(configurations[k]) {
        RefusalExact(lines[k]);
        assert configurations[k] == Meaning(lines[k]);
      }
      return Ok(configurations);
    }
  }
}
