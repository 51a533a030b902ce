/** The connection summary: rows of the socket tables, counted by state and by remote endpoint. */
module Connections {
  import opened Collections
  import opened Grouping
  import opened Numerals
  import opened ProcNet
  import opened Sorting

  datatype SockRow = SockRow(local: Endpoint, remote: Endpoint, state: string)

  /** The name of a state code; an unknown code stands for itself. */
  function StateOf(code: string): string {
    if code == "01" then "ESTABLISHED"
    else if code == "02" then "SYN_SENT"
    else if code == "03" then "SYN_RECV"
    else if code == "04" then "FIN_WAIT1"
    else if code == "05" then "FIN_WAIT2"
    else if code == "06" then "TIME_WAIT"
    else if code == "07" then "CLOSE"
    else if code == "08" then "CLOSE_WAIT"
    else if code == "09" then "LAST_ACK"
    else if code == "0A" then "LISTEN"
    else if code == "0B" then "CLOSING"
    else code
  }

  function Parse(hex: string, v6: bool): Endpoint {
    if v6 then Endpoint6(hex) else Endpoint4(hex)
  }

  /** The kernel's TCP states, numbered from one. */
  const TCP_STATES := ["ESTABLISHED", "SYN_SENT", "SYN_RECV", "FIN_WAIT1", "FIN_WAIT2", "TIME_WAIT", "CLOSE", "CLOSE_WAIT",
    "LAST_ACK", "LISTEN", "CLOSING"]

  /** State n, printed in two hexadecimal digits, is named as the kernel names it. */
  lemma StateNames(n: nat)
    requires 1 <= n <= 11
    ensures StateOf(HexText([n])) == TCP_STATES[n - 1]
  {
    assert [n][..0] == [];
    assert HexText([n]) == Hex2(n) == [HexDigit(0), HexDigit(n)];
    assert n == 1 || n == 2 || n == 3 || n == 4 || n == 5 || n == 6 || n == 7 || n == 8 || n == 9 || n == 10 || n == 11;
  }

  /** A code of two digits that is no such state stands for itself. */
  lemma UnknownState(code: string)
    requires |code| == 2 && code !in ["01", "02", "03", "04", "05", "06", "07", "08", "09", "0A", "0B"]
    ensures StateOf(code) == code
  {
  }

  /** The row of a line that has been split into words. */
  function RowOf(parts: seq<string>, v6: bool): SockRow
    requires |parts| >= 4
  {
    SockRow(Parse(parts[1], v6), Parse(parts[2], v6), StateOf(parts[3]))
  }

  /** The rows of the lines that have at least four words. */
  function RowsOf(lines: seq<seq<string>>, v6: bool): seq<SockRow> {
    if lines == [] then []
    else
      var n := |lines| - 1;
      if |lines[n]| < 4 then RowsOf(lines[..n], v6) else RowsOf(lines[..n], v6) + [RowOf(lines[n], v6)]
  }

  /** The first line is the header. */
  method ParseTable(lines: seq<seq<string>>, v6: bool) returns (rows: seq<SockRow>)
    ensures rows == RowsOf(if lines == [] then [] else lines[1..], v6)
  {
    var body := if lines == [] then [] else lines[1..];
    rows := [];
    for i := 0 to |body|
      invariant rows == RowsOf(body[..i], v6)
    {
      assert body[..i + 1][..i] == body[..i];
      if |body[i]| < 4 {
        continue;
      }
      rows := rows + [RowOf(body[i], v6)];
    }
    assert body[..|body|] == body;
  }

  // ----- Keys -----

  function PortText(p: Option<int>): string {
    match p
    case None => "NaN"
    case Some(n) => IntText(n)
  }

  function PortValue(s: string): Option<int> {
    if s == "NaN" then None else Some(IntValue(s))
  }

  lemma PortRoundTrip(p: Option<int>)
    ensures PortValue(PortText(p)) == p && ':' !in PortText(p)
  {
    if p.Some? {
      IntRoundTrip(p.value);
      var s := IntText(p.value);
      assert s != "NaN" by {
        assert s != "" && s[0] != 'N';
      }
    }
  }

  function KeyText(e: Endpoint): string {
    e.address + ([':'] + PortText(e.port))
  }

  lemma AfterPrefix(x: string, t: string, k: nat)
    requires k < |t|
    ensures (x + t)[|x| + k] == t[k]
  {
  }

  lemma NoLaterColon(x: string, p: string, k: nat)
    requires ':' !in p && |x| < k < |x| + 1 + |p|
    ensures (x + ([':'] + p))[k] != ':'
  {
    AfterPrefix(x, [':'] + p, k - |x|);
  }

  lemma LastColonLeft(x: string, p: string, y: string, q: string)
    requires x + ([':'] + p) == y + ([':'] + q) && ':' !in p
    ensures |y| <= |x|
  {
    AfterPrefix(y, [':'] + q, 0);
    assert |x + ([':'] + p)| == |y + ([':'] + q)|;
    if |x| < |y| {
      NoLaterColon(x, p, |y|);
      assert false;
    }
  }

  lemma LastColon(x: string, p: string, y: string, q: string)
    requires x + ([':'] + p) == y + ([':'] + q) && ':' !in p && ':' !in q
    ensures x == y && p == q
  {
    LastColonLeft(x, p, y, q);
    LastColonLeft(y, q, x, p);
    assert (x + ([':'] + p))[..|x|] == x;
    assert (y + ([':'] + q))[..|x|] == y;
    assert (x + ([':'] + p))[|x| + 1..] == p;
    assert (y + ([':'] + q))[|x| + 1..] == q;
  }

  /** The key splits again at its last colon, so two endpoints with one key are one endpoint. */
  lemma KeyInjective(d: Endpoint, e: Endpoint)
    requires KeyText(d) == KeyText(e)
    ensures d == e
  {
    PortRoundTrip(d.port);
    PortRoundTrip(e.port);
    LastColon(d.address, PortText(d.port), e.address, PortText(e.port));
  }

  /** Two tcp6 peers fall into one group exactly when they are the same address and port. */
  lemma SameKeyIff(a: seq<Byte>, p: nat, b: seq<Byte>, q: nat)
    requires |a| == 16 && |b| == 16 && p < 65536 && q < 65536
    ensures var d, e := Endpoint6(Encode16(a) + ":" + EncodePort(p)), Endpoint6(Encode16(b) + ":" + EncodePort(q));
      KeyText(d) == KeyText(e) <==> a == b && p == q
  {
    var d, e := Endpoint6(Encode16(a) + ":" + EncodePort(p)), Endpoint6(Encode16(b) + ":" + EncodePort(q));
    Endpoint6RoundTrip(a, p);
    Endpoint6RoundTrip(b, q);
    if KeyText(d) == KeyText(e) {
      KeyInjective(d, e);
      AddressTextInjective(a, b);
    }
  }

  // ----- The summary -----

  datatype Peer = Peer(remote: string, port: Option<int>, count: nat)

  datatype Listener = Listener(address: string, port: Option<int>, v6: bool, tcp: bool)

  const MAX_PEERS := 100

  predicate IsEstablished(r: SockRow) { r.state == "ESTABLISHED" }

  function StateKey(r: SockRow): Option<string> { Some(r.state) }

  function PeerKey(r: SockRow): Option<string> {
    if IsEstablished(r) then Some(KeyText(r.remote)) else None
  }

  function AddPeer(e: Option<Peer>, r: SockRow): Option<Peer> {
    Some(if e.None? then Peer(r.remote.address, r.remote.port, 1) else Peer(e.value.remote, e.value.port, e.value.count + 1))
  }

  function ListenerOf(r: SockRow, tcp: bool): Listener {
    Listener(r.local.address, r.local.port, ':' in r.local.address, tcp)
  }

  /** A UDP socket counts as listening when it has a local port and no remote one. */
  predicate IsListening(r: SockRow, tcp: bool) {
    if tcp then r.state == "LISTEN" else r.remote.port == Some(0) && r.local.port != Some(0)
  }

  function Listeners(rows: seq<SockRow>, tcp: bool): seq<Listener> {
    if rows == [] then []
    else
      var n := |rows| - 1;
      var before := Listeners(rows[..n], tcp);
      if IsListening(rows[n], tcp) then before + [ListenerOf(rows[n], tcp)] else before
  }

  /** The two kinds of listening sockets, in the order of the tables. */
  function AllListeners(tcp: seq<SockRow>, udp: seq<SockRow>): seq<Listener> {
    Listeners(tcp, true) + Listeners(udp, false)
  }

  function PortKey(l: Listener): real { l.port.GetOr(0) as real }

  predicate PortsKnown(ls: seq<Listener>) {
    forall i :: 0 <= i < |ls| ==> ls[i].port.Some?
  }

  /** Sorted by port; a port that is not a number makes the sort's order arbitrary, and here leaves it as it is. */
  function ByPort(ls: seq<Listener>): seq<Listener> {
    if PortsKnown(ls) then SortBy(ls, PortKey) else ls
  }

  function States(rows: seq<SockRow>): Table<string, nat> { GroupBy(rows, StateKey, 0, AddCount) }

  function Peers(rows: seq<SockRow>): Table<string, Option<Peer>> { GroupBy(rows, PeerKey, None, AddPeer) }

  datatype Summary = Summary(established: seq<Peer>, states: Table<string, nat>, listening: seq<Listener>, tcp: nat, udp: nat)

  function RowsFrom(table: Option<seq<SockRow>>): seq<SockRow> { table.GetOr([]) }

  /** The loop over the UDP rows. */
  method ListUdp(udp: seq<SockRow>) returns (listening: seq<Listener>)
    ensures listening == Listeners(udp, false)
  {
    listening := [];
    for i := 0 to |udp|
      invariant listening == Listeners(udp[..i], false)
    {
      assert udp[..i + 1][..i] == udp[..i];
      if udp[i].remote.port == Some(0) && udp[i].local.port != Some(0) {
        listening := listening + [ListenerOf(udp[i], false)];
      }
    }
    assert udp[..|udp|] == udp;
  }

  method SummarizeConnections(tcp4: Option<seq<SockRow>>, tcp6: Option<seq<SockRow>>, udp: seq<SockRow>)
    returns (result: Option<Summary>)
    ensures result.None? <==> tcp4.None? && tcp6.None?
    ensures result.Some? ==>
      var tcp := RowsFrom(tcp4) + RowsFrom(tcp6);
      result.value == Summary(TopPeers(tcp), States(tcp), ByPort(AllListeners(tcp, udp)), |tcp|, |udp|)
  {
    if tcp4.None? && tcp6.None? {
      return None;
    }
    var tcpRows := RowsFrom(tcp4) + RowsFrom(tcp6);
    var states := Empty<string, nat>();
    var estab := Empty<string, Option<Peer>>();
    var listening: seq<Listener> := [];
    for i := 0 to |tcpRows|
      invariant states == States(tcpRows[..i])
      invariant estab == Peers(tcpRows[..i])
      invariant listening == Listeners(tcpRows[..i], true)
    {
      assert tcpRows[..i + 1][..i] == tcpRows[..i];
      var r := tcpRows[i];
      states := states.Put(r.state, states.Get(r.state, 0) + 1);
      if r.state == "LISTEN" {
        listening := listening + [ListenerOf(r, true)];
      } else if r.state == "ESTABLISHED" {
        var key := KeyText(r.remote);
        estab := estab.Put(key, AddPeer(estab.Get(key, None), r));
      }
    }
    assert tcpRows[..|tcpRows|] == tcpRows;
    var udpListening := ListUdp(udp);
    PeersValid(tcpRows);
    var top := Top(PeerRows(estab), PeerCount, MAX_PEERS);
    result := Some(Summary(top, states, ByPort(listening + udpListening), |tcpRows|, |udp|));
  }

  // ----- What it says -----

  /** The established rows whose remote end is e. */
  function RowsTo(rows: seq<SockRow>, e: Endpoint): seq<SockRow> {
    if rows == [] then []
    else
      var n := |rows| - 1;
      var before := RowsTo(rows[..n], e);
      if IsEstablished(rows[n]) && rows[n].remote == e then before + [rows[n]] else before
  }

  function Established(rows: seq<SockRow>): nat {
    if rows == [] then 0
    else
      var before := Established(rows[..|rows| - 1]);
      if IsEstablished(rows[|rows| - 1]) then before + 1 else before
  }

  lemma {:induction false} GroupIsEndpoint(rows: seq<SockRow>, e: Endpoint)
    ensures Of(rows, PeerKey, KeyText(e)) == RowsTo(rows, e)
  {
    if rows != [] {
      var n := |rows| - 1;
      GroupIsEndpoint(rows[..n], e);
      if KeyText(rows[n].remote) == KeyText(e) {
        KeyInjective(rows[n].remote, e);
      }
    }
  }

  lemma {:induction false} PeerFold(rows: seq<SockRow>, e: Endpoint)
    requires forall i :: 0 <= i < |rows| ==> rows[i].remote == e
    ensures Fold(AddPeer, None, rows) == if rows == [] then None else Some(Peer(e.address, e.port, |rows|))
  {
    if rows != [] {
      var n := |rows| - 1;
      assert forall i :: 0 <= i < n ==> rows[..n][i] == rows[i];
      PeerFold(rows[..n], e);
    }
  }

  lemma {:induction false} RowsToEnd(rows: seq<SockRow>, e: Endpoint)
    ensures forall i :: 0 <= i < |RowsTo(rows, e)| ==> RowsTo(rows, e)[i].remote == e
  {
    if rows != [] {
      RowsToEnd(rows[..|rows| - 1], e);
    }
  }

  /** The entry of an endpoint with n established rows. */
  function PeerOf(e: Endpoint, n: nat): Option<Peer> {
    if n == 0 then None else Some(Peer(e.address, e.port, n))
  }

  /** Each endpoint's entry counts exactly the established rows with that address and that port. */
  lemma GroupingIsExact(rows: seq<SockRow>, e: Endpoint)
    ensures Peers(rows).Get(KeyText(e), None) == PeerOf(e, |RowsTo(rows, e)|)
  {
    GroupByMeaning(rows, PeerKey, None, AddPeer, KeyText(e));
    GroupIsEndpoint(rows, e);
    RowsToEnd(rows, e);
    PeerFold(RowsTo(rows, e), e);
  }

  // ----- The listening sockets -----

  /** A TCP row listens by its state, a UDP row when it has a local port and no remote one; the local end is shown. */
  predicate ShownAs(r: SockRow, tcp: bool, l: Listener) {
    && (if tcp then r.state == "LISTEN" else r.remote.port == Some(0) && r.local.port != Some(0))
    && l.address == r.local.address && l.port == r.local.port && l.tcp == tcp
    && (l.v6 <==> ':' in r.local.address)
  }

  /** Some row listens, and l describes it. */
  ghost predicate Describes(rows: seq<SockRow>, tcp: bool, l: Listener) {
    exists i :: 0 <= i < |rows| && ShownAs(rows[i], tcp, l)
  }

  lemma ShownIff(r: SockRow, tcp: bool, l: Listener)
    ensures ShownAs(r, tcp, l) <==> IsListening(r, tcp) && ListenerOf(r, tcp) == l
  {
  }

  lemma {:induction false} ListenersMembers(rows: seq<SockRow>, tcp: bool, l: Listener)
    ensures l in Listeners(rows, tcp) <==> Describes(rows, tcp, l)
  {
    if rows != [] {
      var n := |rows| - 1;
      var init := rows[..n];
      ListenersMembers(init, tcp, l);
      ShownIff(rows[n], tcp, l);
      if Describes(init, tcp, l) {
        var i :| 0 <= i < n && ShownAs(init[i], tcp, l);
        assert rows[i] == init[i];
      }
      if Describes(rows, tcp, l) {
        var i :| 0 <= i < |rows| && ShownAs(rows[i], tcp, l);
        assert i < n ==> init[i] == rows[i];
      }
    }
  }

  /** By port, and at one port in the same order as in `all`. */
  ghost predicate InPortOrder(ls: seq<Listener>, all: seq<Listener>) {
    && (forall i, j :: 0 <= i < j < |ls| ==> PortKey(ls[i]) <= PortKey(ls[j]))
    && (forall q: real :: WithKey(ls, PortKey, q) == WithKey(all, PortKey, q))
  }

  /** The sort by port loses and adds nothing. */
  lemma ByPortSorts(all: seq<Listener>)
    ensures multiset(ByPort(all)) == multiset(all)
    ensures PortsKnown(all) <==> PortsKnown(ByPort(all))
    ensures PortsKnown(all) ==> InPortOrder(ByPort(all), all)
  {
    if PortsKnown(all) {
      SortByCorrect(all, PortKey);
      forall q: real ensures WithKey(ByPort(all), PortKey, q) == WithKey(all, PortKey, q) {
        SortByStable(all, PortKey, q);
      }
      forall l | l in ByPort(all) ensures l.port.Some? {
        assert l in multiset(all);
      }
    }
  }

  /** The report lists exactly the listening rows of both kinds, by port, and at one port in the order of the tables. */
  lemma ListeningMeaning(tcp: seq<SockRow>, udp: seq<SockRow>, ls: seq<Listener>)
    requires ls == ByPort(AllListeners(tcp, udp))
    ensures forall l :: l in ls <==> Describes(tcp, true, l) || Describes(udp, false, l)
    ensures |ls| == |AllListeners(tcp, udp)|
    ensures PortsKnown(ls) ==> InPortOrder(ls, AllListeners(tcp, udp))
  {
    var all := AllListeners(tcp, udp);
    ByPortSorts(all);
    SameSize(ls, all);
    forall l ensures l in ls <==> Describes(tcp, true, l) || Describes(udp, false, l) {
      ListenersMembers(tcp, true, l);
      ListenersMembers(udp, false, l);
      assert l in ls <==> l in multiset(ls);
      assert l in all <==> l in multiset(all);
    }
  }

  lemma SameSize<T>(a: seq<T>, b: seq<T>)
    requires multiset(a) == multiset(b)
    ensures |a| == |b|
  {
    assert |multiset(a)| == |multiset(b)|;
  }

  // ----- From the kernel's sockets to the counts -----

  /** A socket as the kernel knows it: four address bytes in the tcp table, sixteen in the tcp6 table, a state of two digits. */
  datatype Socket = Socket(local: seq<Byte>, localPort: nat, remote: seq<Byte>, remotePort: nat, code: string)

  predicate ValidSocket(s: Socket, v6: bool) {
    && |s.local| == |s.remote| == (if v6 then 16 else 4)
    && s.localPort < 65536 && s.remotePort < 65536
    && |s.code| == 2
  }

  ghost predicate AllValid(sockets: seq<Socket>, v6: bool) {
    forall i :: 0 <= i < |sockets| ==> ValidSocket(sockets[i], v6)
  }

  function EncodeEnd(b: seq<Byte>, p: nat, v6: bool): string
    requires |b| == (if v6 then 16 else 4) && p < 65536
  {
    (if v6 then Encode16(b) else Encode4(b)) + ":" + EncodePort(p)
  }

  /** The words of a line of the table. */
  function LineOf(s: Socket, v6: bool): seq<string>
    requires ValidSocket(s, v6)
  {
    ["0:", EncodeEnd(s.local, s.localPort, v6), EncodeEnd(s.remote, s.remotePort, v6), s.code]
  }

  function Lines(sockets: seq<Socket>, v6: bool): (lines: seq<seq<string>>)
    requires AllValid(sockets, v6)
    ensures |lines| == |sockets|
  {
    if sockets == [] then [] else Lines(sockets[..|sockets| - 1], v6) + [LineOf(sockets[|sockets| - 1], v6)]
  }

  /** The remote address as an IPv6 address, v4-mapped for the tcp table. */
  function RemoteOf(s: Socket, v6: bool): seq<Byte>
    requires ValidSocket(s, v6)
  {
    if v6 then s.remote else Map4(s.remote)
  }

  function LocalOf(s: Socket, v6: bool): seq<Byte>
    requires ValidSocket(s, v6)
  {
    if v6 then s.local else Map4(s.local)
  }

  /** How many established sockets of one table have the remote address b and port q. */
  function CountTo(sockets: seq<Socket>, v6: bool, b: seq<Byte>, q: nat): nat
    requires AllValid(sockets, v6)
  {
    if sockets == [] then 0
    else
      var s := sockets[|sockets| - 1];
      var before := CountTo(sockets[..|sockets| - 1], v6, b, q);
      if s.code == "01" && RemoteOf(s, v6) == b && s.remotePort == q then before + 1 else before
  }

  function Shown6(b: seq<Byte>, q: nat): Endpoint
    requires |b| == 16
  {
    Endpoint(AddressText(b), Some(q))
  }

  lemma EndShown(b: seq<Byte>, p: nat, v6: bool)
    requires |b| == (if v6 then 16 else 4) && p < 65536
    ensures Parse(EncodeEnd(b, p, v6), v6) == Shown6(if v6 then b else Map4(b), p)
  {
    if v6 {
      Endpoint6RoundTrip(b, p);
    } else {
      Endpoint4RoundTrip(b, p);
    }
  }

  /** A printed socket is parsed to its two ends and the name of its state. */
  lemma RowOfSocket(s: Socket, v6: bool)
    requires ValidSocket(s, v6)
    ensures RowOf(LineOf(s, v6), v6)
      == SockRow(Shown6(LocalOf(s, v6), s.localPort), Shown6(RemoteOf(s, v6), s.remotePort), StateOf(s.code))
  {
    EndShown(s.local, s.localPort, v6);
    EndShown(s.remote, s.remotePort, v6);
  }

  lemma EstablishedCode(code: string)
    requires |code| == 2
    ensures StateOf(code) == "ESTABLISHED" <==> code == "01"
  {
    assert |StateOf("01")| == 11;
    assert code != "01" ==> |StateOf(code)| < 11;
  }

  lemma RowOfLine(s: Socket, v6: bool, b: seq<Byte>, q: nat)
    requires ValidSocket(s, v6) && |b| == 16
    ensures var r := RowOf(LineOf(s, v6), v6);
      && (IsEstablished(r) <==> s.code == "01")
      && (r.remote == Shown6(b, q) <==> RemoteOf(s, v6) == b && s.remotePort == q)
  {
    EstablishedCode(s.code);
    RowOfSocket(s, v6);
    AddressTextInjective(RemoteOf(s, v6), b);
  }

  lemma LinesStep(sockets: seq<Socket>, v6: bool)
    requires sockets != [] && AllValid(sockets, v6)
    ensures var n := |sockets| - 1;
      RowsOf(Lines(sockets, v6), v6) == RowsOf(Lines(sockets[..n], v6), v6) + [RowOf(LineOf(sockets[n], v6), v6)]
  {
    var n := |sockets| - 1;
    Snoc(Lines(sockets[..n], v6), LineOf(sockets[n], v6));
  }

  lemma RowsToSnoc(rows: seq<SockRow>, r: SockRow, e: Endpoint)
    ensures RowsTo(rows + [r], e) == if IsEstablished(r) && r.remote == e then RowsTo(rows, e) + [r] else RowsTo(rows, e)
  {
    Snoc(rows, r);
  }

  lemma {:induction false} RowsToSockets(sockets: seq<Socket>, v6: bool, b: seq<Byte>, q: nat)
    requires AllValid(sockets, v6) && |b| == 16
    ensures |RowsTo(RowsOf(Lines(sockets, v6), v6), Shown6(b, q))| == CountTo(sockets, v6, b, q)
  {
    if sockets != [] {
      var n := |sockets| - 1;
      var r := RowOf(LineOf(sockets[n], v6), v6);
      RowsToSockets(sockets[..n], v6, b, q);
      RowOfLine(sockets[n], v6, b, q);
      LinesStep(sockets, v6);
      RowsToSnoc(RowsOf(Lines(sockets[..n], v6), v6), r, Shown6(b, q));
    }
  }

  lemma {:induction false} RowsToConcat(a: seq<SockRow>, b: seq<SockRow>, e: Endpoint)
    ensures RowsTo(a + b, e) == RowsTo(a, e) + RowsTo(b, e)
  {
    if b == [] {
      assert a + b == a;
    } else {
      var n := |b| - 1;
      RowsToConcat(a, b[..n], e);
      assert (a + b)[..|a + b| - 1] == a + b[..n];
    }
  }

  /** The rows of the tcp table followed by those of the tcp6 table. */
  function TableRows(tcp: seq<Socket>, tcp6: seq<Socket>): seq<SockRow>
    requires AllValid(tcp, false) && AllValid(tcp6, true)
  {
    RowsOf(Lines(tcp, false), false) + RowsOf(Lines(tcp6, true), true)
  }

  /**
   * Printed, parsed and grouped, both tables together count every remote address and port exactly as
   * often as it is connected; an IPv4 peer and its v4-mapped form are one peer.
   */
  lemma PeersCountSockets(tcp: seq<Socket>, tcp6: seq<Socket>, rows: seq<SockRow>, b: seq<Byte>, q: nat, e: Endpoint)
    requires AllValid(tcp, false) && AllValid(tcp6, true) && rows == TableRows(tcp, tcp6)
    requires |b| == 16 && e == Shown6(b, q)
    ensures Peers(rows).Get(KeyText(e), None) == PeerOf(e, CountTo(tcp, false, b, q) + CountTo(tcp6, true, b, q))
  {
    SocketsInTables(tcp, tcp6, rows, b, q, e);
    GroupingIsExact(rows, e);
  }

  lemma SocketsInTables(tcp: seq<Socket>, tcp6: seq<Socket>, rows: seq<SockRow>, b: seq<Byte>, q: nat, e: Endpoint)
    requires AllValid(tcp, false) && AllValid(tcp6, true) && rows == TableRows(tcp, tcp6)
    requires |b| == 16 && e == Shown6(b, q)
    ensures |RowsTo(rows, e)| == CountTo(tcp, false, b, q) + CountTo(tcp6, true, b, q)
  {
    RowsToSockets(tcp, false, b, q);
    RowsToSockets(tcp6, true, b, q);
    RowsToConcat(RowsOf(Lines(tcp, false), false), RowsOf(Lines(tcp6, true), true), e);
  }

  // ----- Totals -----

  /** Each state counts the rows in that state. */
  lemma StatesMeaning(rows: seq<SockRow>, state: string)
    ensures States(rows).Get(state, 0) == |Filter(rows, (r: SockRow) => r.state == state)|
  {
    GroupByMeaning(rows, StateKey, 0, AddCount, state);
    CountFold(Of(rows, StateKey, state));
    OfIsFilter(rows, StateKey, state, (r: SockRow) => r.state == state);
  }

  function PeerUnits(e: Option<Peer>): int { if e.Some? then e.value.count else 0 }

  lemma {:induction false} KeyedRows(rows: seq<SockRow>)
    ensures CountKeyed(rows, PeerKey) == Established(rows)
    ensures CountKeyed(rows, StateKey) == |rows|
  {
    if rows != [] {
      KeyedRows(rows[..|rows| - 1]);
    }
  }

  /** The uncut peer counts total the established rows, and the states total all rows. */
  lemma CountsTotal(rows: seq<SockRow>)
    ensures MapSum(Peers(rows).rows, PeerUnits) == Established(rows)
    ensures MapSum(States(rows).rows, Whole) == |rows|
  {
    GroupTotal(rows, PeerKey, None, AddPeer, PeerUnits, One);
    GroupTotal(rows, StateKey, 0, AddCount, Whole, One);
    KeyedOnes(rows, PeerKey);
    KeyedOnes(rows, StateKey);
    KeyedRows(rows);
  }

  // ----- The cut -----

  lemma PeersValid(rows: seq<SockRow>)
    ensures Peers(rows).Valid() && forall k :: k in Peers(rows).rows ==> Peers(rows).rows[k].Some?
  {
    GroupByValid(rows, PeerKey, None, AddPeer);
    forall k | k in Peers(rows).rows ensures Peers(rows).rows[k].Some? {
      GroupByMeaning(rows, PeerKey, None, AddPeer, k);
    }
  }

  function PeerCount(p: Peer): real { p.count as real }
  function Units(p: Peer): int { p.count }

  function PeerRows(t: Table<string, Option<Peer>>): (rows: seq<Peer>)
    requires t.Valid() && forall k :: k in t.rows ==> t.rows[k].Some?
    ensures |rows| == |t.order|
    ensures forall i :: 0 <= i < |rows| ==> t.Entries()[i].1 == Some(rows[i])
  {
    var es := t.Entries();
    seq(|es|, i requires 0 <= i < |es| => assert es[i].0 in t.rows; es[i].1.value)
  }

  function TopPeers(rows: seq<SockRow>): seq<Peer> {
    PeersValid(rows);
    Top(PeerRows(Peers(rows)), PeerCount, MAX_PEERS)
  }

  lemma {:induction false} PeerKeys(rows: seq<SockRow>, k: string) returns (e: Endpoint)
    requires k in Peers(rows).rows
    ensures KeyText(e) == k && RowsTo(rows, e) != []
  {
    GroupByMeaning(rows, PeerKey, None, AddPeer, k);
    var r := Of(rows, PeerKey, k)[0];
    OfMembers(rows, PeerKey, k, r);
    e := r.remote;
    GroupIsEndpoint(rows, e);
  }

  lemma PeerRowReports(rows: seq<SockRow>, p: Peer)
    requires Peers(rows).Valid() && forall k :: k in Peers(rows).rows ==> Peers(rows).rows[k].Some?
    requires p in PeerRows(Peers(rows))
    ensures p.count == |RowsTo(rows, Endpoint(p.remote, p.port))| > 0
  {
    var t := Peers(rows);
    var i :| 0 <= i < |PeerRows(t)| && PeerRows(t)[i] == p;
    var k := t.Entries()[i].0;
    var e := PeerKeys(rows, k);
    GroupingIsExact(rows, e);
  }

  /** A reported peer counts the established rows of its own address and port. */
  lemma PeersReport(rows: seq<SockRow>, kept: seq<Peer>, dropped: seq<Peer>)
    requires Peers(rows).Valid() && forall k :: k in Peers(rows).rows ==> Peers(rows).rows[k].Some?
    requires multiset(PeerRows(Peers(rows))) == multiset(kept) + multiset(dropped)
    ensures forall p :: p in kept ==> p.count == |RowsTo(rows, Endpoint(p.remote, p.port))| > 0
  {
    forall p | p in kept ensures p.count == |RowsTo(rows, Endpoint(p.remote, p.port))| > 0 {
      assert p in multiset(PeerRows(Peers(rows)));
      PeerRowReports(rows, p);
    }
  }

  /** The busiest 100 peers are kept, none is beaten by a dropped one, and nothing is lost but the dropped. */
  lemma TopPeersCut(rows: seq<SockRow>) returns (dropped: seq<Peer>)
    ensures var kept := TopPeers(rows);
      && |kept| <= 100
      && (dropped != [] ==> |kept| == 100)
      && (forall i, j :: 0 <= i < j < |kept| ==> kept[i].count >= kept[j].count)
      && (forall i, j :: 0 <= i < |kept| && 0 <= j < |dropped| ==> kept[i].count >= dropped[j].count)
      && (forall p :: p in kept ==> p.count == |RowsTo(rows, Endpoint(p.remote, p.port))| > 0)
      && Sum(kept, Units) + Sum(dropped, Units) == Established(rows)
  {
    var t := Peers(rows);
    PeersValid(rows);
    var all := PeerRows(t);
    dropped := TopIsBest(all, PeerCount, MAX_PEERS);
    var kept := TopPeers(rows);
    forall i, j | 0 <= i < j < |kept| ensures kept[i].count >= kept[j].count {
      assert PeerCount(kept[i]) >= PeerCount(kept[j]);
    }
    forall i, j | 0 <= i < |kept| && 0 <= j < |dropped| ensures kept[i].count >= dropped[j].count {
      assert PeerCount(kept[i]) >= PeerCount(dropped[j]);
    }
    PeersReport(rows, kept, dropped);
    CutSizes(all, kept, dropped);
    PeersTotal(rows, kept, dropped);
  }

  lemma PeersTotal(rows: seq<SockRow>, kept: seq<Peer>, dropped: seq<Peer>)
    requires Peers(rows).Valid() && forall k :: k in Peers(rows).rows ==> Peers(rows).rows[k].Some?
    requires multiset(PeerRows(Peers(rows))) == multiset(kept) + multiset(dropped)
    ensures Sum(kept, Units) + Sum(dropped, Units) == Established(rows)
  {
    var t, all := Peers(rows), PeerRows(Peers(rows));
    SumPermuted(all, kept + dropped, Units);
    SumConcat(kept, dropped, Units);
    RowsSum(t.Entries(), all, PeerUnits, Units);
    EntriesSum(t, PeerUnits);
    CountsTotal(rows);
  }

  lemma CutSizes<T>(all: seq<T>, kept: seq<T>, dropped: seq<T>)
    requires multiset(all) == multiset(kept) + multiset(dropped)
    ensures |all| == |kept| + |dropped|
  {
    assert |multiset(all)| == |multiset(kept)| + |multiset(dropped)|;
  }
}
