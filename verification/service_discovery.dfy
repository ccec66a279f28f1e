/** The service-discovery annotation the system tests expect
    (`StUtils.expectedServiceDiscoveryInfo`): an array of objects with the
    members `port`, `tls`, `protocol` and `auth`, TLS being on exactly for the
    port 9093. */
module ServiceDiscovery {
  import opened Wrappers
  import opened Objects
  import opened Json
  import opened JavaInt

  const PlainPort: Int32 := 9092
  const TlsPort: Int32 := 9093

  /** The object for one listener: `port`, `tls`, `protocol` and `auth` put
      in that order into a fresh object. */
  function ListenerInfo(port: Int32, protocol: string, auth: string): (r: seq<Member<Value>>)
    ensures Names(r) == ["port", "tls", "protocol", "auth"]
    ensures Lookup(r, "port") == Some(Int(port as int))
    ensures Lookup(r, "tls") == Some(Bool(port == TlsPort))
    ensures Lookup(r, "protocol") == Some(Str(protocol))
    ensures Lookup(r, "auth") == Some(Str(auth))
  {
    var members := [Member("port", Int(port as int)), Member("tls", Bool(port == TlsPort)),
                    Member("protocol", Str(protocol)), Member("auth", Str(auth))];
    assert DistinctNames(members);
    PutAllDistinct(members);
    LookupDistinct(members, 0);
    LookupDistinct(members, 1);
    LookupDistinct(members, 2);
    LookupDistinct(members, 3);
    NamesIndex(members, 0);
    NamesIndex(members, 1);
    NamesIndex(members, 2);
    NamesIndex(members, 3);
    PutAll(members)
  }

  /** `expectedServiceDiscoveryInfo(port, protocol, auth)`: a one-element
      array whose object carries the four members, TLS on for 9093 only. */
  function ExpectedServiceDiscoveryInfo(port: Int32, protocol: string, auth: string): (r: Value)
    ensures r.Array? && |r.items| == 1 && r.items[0].Object?
    ensures Names(r.items[0].members) == ["port", "tls", "protocol", "auth"]
    ensures Lookup(r.items[0].members, "port") == Some(Int(port as int))
    ensures Lookup(r.items[0].members, "tls") == Some(Bool(port == 9093))
    ensures Lookup(r.items[0].members, "protocol") == Some(Str(protocol))
    ensures Lookup(r.items[0].members, "auth") == Some(Str(auth))
  {
    Array([Object(ListenerInfo(port, protocol, auth))])
  }

  /** `expectedServiceDiscoveryInfo(plainAuth, tlsAuth)`: the plain listener
      on 9092 without TLS, then the TLS listener on 9093 with it; both speak
      `kafka`. */
  function ExpectedServiceDiscoveryInfoPair(plainAuth: string, tlsAuth: string): (r: Value)
    ensures r.Array? && |r.items| == 2 && r.items[0].Object? && r.items[1].Object?
    ensures Names(r.items[0].members) == Names(r.items[1].members) == ["port", "tls", "protocol", "auth"]
    ensures Lookup(r.items[0].members, "port") == Some(Int(9092))
    ensures Lookup(r.items[0].members, "tls") == Some(Bool(false))
    ensures Lookup(r.items[0].members, "protocol") == Some(Str("kafka"))
    ensures Lookup(r.items[0].members, "auth") == Some(Str(plainAuth))
    ensures Lookup(r.items[1].members, "port") == Some(Int(9093))
    ensures Lookup(r.items[1].members, "tls") == Some(Bool(true))
    ensures Lookup(r.items[1].members, "protocol") == Some(Str("kafka"))
    ensures Lookup(r.items[1].members, "auth") == Some(Str(tlsAuth))
  {
    var plain := ExpectedServiceDiscoveryInfo(PlainPort, "kafka", plainAuth);
    var tls := ExpectedServiceDiscoveryInfo(TlsPort, "kafka", tlsAuth);
    Array([plain.items[0], tls.items[0]])
  }

  /** The `tls` member is true exactly for the port 9093. */
  lemma TlsExactlyOnTlsPort(port: Int32, protocol: string, auth: string)
    ensures Lookup(ExpectedServiceDiscoveryInfo(port, protocol, auth).items[0].members, "tls") == Some(Bool(true))
      <==> port == 9093
  {
  }
}
