/**
 * The request handler of src/handler.rs: a query is checked (opcode, message
 * type, zone), the zone apex is answered from the configured addresses, any
 * other name in the zone is tokenized label by label and decoded into one
 * AAAA record, and every error is answered with one TXT record.
 *
 * DNS messages are reduced to what the handler reads (opcode, message type,
 * query name) and what it sends (the authoritative flag and the answers).
 */
module Handler {
  import opened Wrappers
  import P = Parser

  /** An IPv4 address: four octets. */
  type Ipv4Addr = a: seq<P.u8> | |a| == 4 witness [0, 0, 0, 0]

  /** An IPv6 address: sixteen octets. */
  type Ipv6Addr = a: seq<P.u8> | |a| == 16 witness [0, 0, 0, 0, 0, 0, 0, 0, 0, 0, 0, 0, 0, 0, 0, 0]

  datatype OpCode = Query | Status | Notify | Update | Unknown(code: P.u8)

  datatype MessageType = Query | Response

  /** A domain name as its labels, most specific first; the root label is not listed. */
  type Name = seq<string>

  predicate IsLowerName(name: Name)
  {
    forall i, j | 0 <= i < |name| && 0 <= j < |name[i]| :: !('A' <= name[i][j] <= 'Z')
  }

  /** A name whose letters are lower-case, as the query name and the zone are. */
  type LowerName = n: Name | IsLowerName(n) witness []

  /** `zone.zone_of(name)`: `name` is `zone` itself or lies below it. */
  predicate ZoneOf(zone: Name, name: Name)
  {
    |zone| <= |name| && name[|name| - |zone|..] == zone
  }

  /** `num_labels()`: the number of labels, not counting a leading wildcard `*`. */
  function NumLabels(name: Name): nat
  {
    if |name| > 0 && name[0] == "*" then |name| - 1 else |name|
  }

  datatype Request = Request(opCode: OpCode, messageType: MessageType, name: LowerName)

  datatype RData = A(v4: Ipv4Addr) | AAAA(v6: Ipv6Addr) | TXT(strings: seq<string>)

  datatype Record = Record(name: Name, ttl: nat, rdata: RData)

  /** The part of a response the handler decides: the authoritative flag and the answers. */
  datatype Reply = Reply(authoritative: bool, answers: seq<Record>)

  datatype Error =
    | InvalidOpCode(opCode: OpCode)
    | InvalidMessageType(messageType: MessageType)
    | InvalidZone(zoneName: LowerName)
    | Io
    | InvalidAddress
    | NotEnoughOctets

  /** The errors the address decoder reports. */
  type DecodeError = e: Error | e.InvalidAddress? || e.NotEnoughOctets? witness InvalidAddress

  /** `Parser::to_address`, which turns the tokens of a name into an address. */
  type AddressDecoder = seq<P.Token> -> Result<Ipv6Addr, DecodeError>

  const AddressTtl: nat := 3600
  const ErrorTtl: nat := 60

  /** The diagnostic text sent for an error. */
  function ErrorText(e: Error): (text: string)
    ensures text == "Invalid address" <==> e.InvalidAddress?
    ensures text == "Not enough octets" <==> e.NotEnoughOctets?
    ensures text == "Unknown error" <==> !(e.InvalidAddress? || e.NotEnoughOctets?)
  {
    match e
    case InvalidAddress => "Invalid address"
    case NotEnoughOctets => "Not enough octets"
    case _ => "Unknown error"
  }

  /** A name in the zone with as many labels as the zone is the apex, or the wildcard just below it. */
  lemma ApexNames(zone: Name, name: Name)
    requires ZoneOf(zone, name) && NumLabels(zone) == NumLabels(name)
    ensures name == zone || name == ["*"] + zone
  {
  }

  /** Below the zone, one more label always means more counted labels. */
  lemma DescendantHasMoreLabels(zone: Name, name: Name)
    requires ZoneOf(zone, name) && (|name| == 0 || name[0] != "*")
    ensures NumLabels(name) == NumLabels(zone) <==> name == zone
  {
  }

  datatype Handler = Handler(rootZone: LowerName, rootIpv4: Option<Ipv4Addr>, rootIpv6: Option<Ipv6Addr>)
  {
    /** The apex answer: an A record if an IPv4 address is configured, then an AAAA record if an IPv6 one is. */
    function ApexReply(name: Name): (resp: Reply)
      ensures resp.authoritative
      ensures |resp.answers| == (if rootIpv4.Some? then 1 else 0) + (if rootIpv6.Some? then 1 else 0)
      ensures rootIpv4.Some? ==> resp.answers[0] == Record(name, AddressTtl, A(rootIpv4.value))
      ensures rootIpv6.Some? ==> resp.answers[|resp.answers| - 1] == Record(name, AddressTtl, AAAA(rootIpv6.value))
    {
      var v4 := if rootIpv4.Some? then [Record(name, AddressTtl, A(rootIpv4.value))] else [];
      var v6 := if rootIpv6.Some? then [Record(name, AddressTtl, AAAA(rootIpv6.value))] else [];
      Reply(true, v4 + v6)
    }

    /** `handle_root_request`: the records are pushed one by one. */
    method HandleRootRequest(request: Request) returns (resp: Reply)
      ensures resp == ApexReply(request.name)
    {
      var records: seq<Record> := [];
      if rootIpv4.Some? {
        records := records + [Record(request.name, AddressTtl, A(rootIpv4.value))];
      }
      if rootIpv6.Some? {
        records := records + [Record(request.name, AddressTtl, AAAA(rootIpv6.value))];
      }
      resp := Reply(true, records);
    }

    /** The outcome of `do_handle_request` for a request, given the address decoder. */
    function Route(request: Request, toAddress: AddressDecoder): Result<Reply, Error>
    {
      if request.opCode != OpCode.Query then Err(InvalidOpCode(request.opCode))
      else if request.messageType != MessageType.Query then Err(InvalidMessageType(request.messageType))
      else if !ZoneOf(rootZone, request.name) then Err(InvalidZone(request.name))
      else if NumLabels(rootZone) == NumLabels(request.name) then Ok(ApexReply(request.name))
      else
        match toAddress(P.Tokenize(request.name))
        case Ok(address) => Ok(Reply(true, [Record(request.name, AddressTtl, AAAA(address))]))
        case Err(e) => Err(e)
    }

    /** `do_handle_request`: the checks in order, then the labels fed to a fresh parser one at a time. */
    method DoHandleRequest(request: Request, toAddress: AddressDecoder) returns (r: Result<Reply, Error>)
      ensures r == Route(request, toAddress)
    {
      if request.opCode != OpCode.Query {
        return Err(InvalidOpCode(request.opCode));
      }
      if request.messageType != MessageType.Query {
        return Err(InvalidMessageType(request.messageType));
      }
      var name := request.name;
      if !ZoneOf(rootZone, name) {
        return Err(InvalidZone(name));
      }
      if ZoneOf(rootZone, name) && NumLabels(rootZone) == NumLabels(name) {
        var resp := HandleRootRequest(request);
        return Ok(resp);
      }
      var parser := new P.Parser();
      for i := 0 to |name|
        invariant |parser.tokens| == i
        invariant forall j | 0 <= j < i :: parser.tokens[j] == P.Classify(name[j])
      {
        parser.AddTokenFromLabel(name[i]);
      }
      assert parser.tokens == P.Tokenize(name);
      match toAddress(parser.tokens)
      case Ok(address) =>
        r := Ok(Reply(true, [Record(name, AddressTtl, AAAA(address))]));
      case Err(e) =>
        r := Err(e);
    }

    /** `handle_request`: a successful response as it is, any error as one TXT record. */
    method HandleRequest(request: Request, toAddress: AddressDecoder) returns (resp: Reply)
      ensures resp.authoritative
      ensures Route(request, toAddress).Ok? ==> resp == Route(request, toAddress).value
      ensures Route(request, toAddress).Err? ==>
        resp.answers == [Record(request.name, ErrorTtl, TXT([ErrorText(Route(request, toAddress).error)]))]
    {
      var result := DoHandleRequest(request, toAddress);
      match result
      case Ok(info) =>
        resp := info;
      case Err(e) =>
        var text := ErrorText(e);
        resp := Reply(true, [Record(request.name, ErrorTtl, TXT([text]))]);
    }

    // -------------------------------------------------------------------------
    // Properties of the routing decision.
    // -------------------------------------------------------------------------

    /**
     * Each rejection happens exactly when its check is the first to fail: the
     * opcode, then the message type, then the zone; the IO error never arises here.
     */
    lemma RouteRejections(request: Request, toAddress: AddressDecoder)
      ensures Route(request, toAddress).Err? && Route(request, toAddress).error.InvalidOpCode?
        <==> request.opCode != OpCode.Query
      ensures Route(request, toAddress).Err? && Route(request, toAddress).error.InvalidMessageType?
        <==> request.opCode == OpCode.Query && request.messageType != MessageType.Query
      ensures Route(request, toAddress).Err? && Route(request, toAddress).error.InvalidZone?
        <==> request.opCode == OpCode.Query && request.messageType == MessageType.Query && !ZoneOf(rootZone, request.name)
      ensures Route(request, toAddress) != Err(Io)
    {
    }

    /** The decoder is consulted only for names strictly below the apex. */
    lemma DecoderOnlyBelowApex(request: Request, d1: AddressDecoder, d2: AddressDecoder)
      requires Route(request, d1) != Route(request, d2)
      ensures request.opCode == OpCode.Query && request.messageType == MessageType.Query
      ensures ZoneOf(rootZone, request.name) && |request.name| > |rootZone|
      ensures request.name != rootZone
    {
    }

    /** An accepted request with the apex's label count gets the apex answer; that name is the apex or `*` under it. */
    lemma RouteApex(request: Request, toAddress: AddressDecoder)
      requires request.opCode == OpCode.Query && request.messageType == MessageType.Query
      requires ZoneOf(rootZone, request.name) && NumLabels(rootZone) == NumLabels(request.name)
      ensures Route(request, toAddress) == Ok(ApexReply(request.name))
      ensures request.name == rootZone || request.name == ["*"] + rootZone
    {
    }

    /**
     * Below the apex, the decoder receives one token per label of the whole name,
     * the zone's own labels last; a decoded address is the single AAAA answer and
     * a decode error is passed on unchanged.
     */
    lemma RouteBelowApex(request: Request, toAddress: AddressDecoder)
      requires request.opCode == OpCode.Query && request.messageType == MessageType.Query
      requires ZoneOf(rootZone, request.name) && NumLabels(rootZone) != NumLabels(request.name)
      ensures var tokens := P.Tokenize(request.name);
        && |tokens| == |request.name|
        && tokens == P.Tokenize(request.name[..|request.name| - |rootZone|]) + P.Tokenize(rootZone)
        && Route(request, toAddress) ==
          match toAddress(tokens)
          case Ok(address) => Ok(Reply(true, [Record(request.name, AddressTtl, AAAA(address))]))
          case Err(e) => Err(e)
    {
      var name := request.name;
      var k := |name| - |rootZone|;
      assert name == name[..k] + rootZone;
      P.TokenizeAppend(name[..k], rootZone);
    }

    /** Every successful outcome is authoritative and answers at the query name with at most two records. */
    lemma RouteSuccess(request: Request, toAddress: AddressDecoder)
      requires Route(request, toAddress).Ok?
      ensures var resp := Route(request, toAddress).value;
        && resp.authoritative
        && |resp.answers| <= 2
        && (NumLabels(rootZone) != NumLabels(request.name) ==> |resp.answers| == 1 && resp.answers[0].rdata.AAAA?)
        && forall rec | rec in resp.answers :: rec.name == request.name && rec.ttl == AddressTtl
    {
    }
  }
}
