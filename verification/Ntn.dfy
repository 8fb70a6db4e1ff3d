// Satellite access (core/access/ntn): downlink buffering over coverage gaps, and feeder-link switching.
module Ntn {
  import opened Wrappers

  // ---- The downlink buffer ----

  datatype Packet = Packet(timestamp: int, data: int)
  // What became of a packet that left the buffer.
  datatype Fate = Delivered | Overflowed | Expired

  predicate InTime(p: Packet, now: int, ttl: int) {
    now - p.timestamp < ttl
  }

  // The packets a flush returns, in order.
  function Fresh(buf: seq<Packet>, now: int, ttl: int): seq<Packet> {
    if buf == [] then [] else
      Fresh(buf[..|buf| - 1], now, ttl) + if InTime(buf[|buf| - 1], now, ttl) then [buf[|buf| - 1]] else []
  }

  // What a flush does to each.
  function FlushFates(buf: seq<Packet>, now: int, ttl: int): (r: seq<Fate>)
    ensures |r| == |buf|
    ensures forall i :: 0 <= i < |r| ==> r[i] == if InTime(buf[i], now, ttl) then Delivered else Expired
  {
    seq(|buf|, i requires 0 <= i < |buf| => if InTime(buf[i], now, ttl) then Delivered else Expired)
  }

  // The packets of a fate, in order.
  function With(packets: seq<Packet>, fates: seq<Fate>, fate: Fate): seq<Packet>
    requires |fates| <= |packets|
    decreases |fates|
  {
    if fates == [] then [] else
      var n := |fates| - 1;
      With(packets, fates[..n], fate) + if fates[n] == fate then [packets[n]] else []
  }

  lemma {:induction false} WithPrefix(packets: seq<Packet>, more: seq<Packet>, fates: seq<Fate>, fate: Fate)
    requires |fates| <= |packets| && packets <= more
    ensures With(more, fates, fate) == With(packets, fates, fate)
    decreases |fates|
  {
    if fates == [] {
    } else {
      WithPrefix(packets, more, fates[..|fates| - 1], fate);
    }
  }

  lemma FlushFatesNext(buf: seq<Packet>, now: int, ttl: int)
    requires buf != []
    ensures FlushFates(buf, now, ttl)
            == FlushFates(buf[..|buf| - 1], now, ttl) + [if InTime(buf[|buf| - 1], now, ttl) then Delivered else Expired]
  {
  }

  lemma WithNext(packets: seq<Packet>, fates: seq<Fate>, last: Fate, fate: Fate)
    requires |fates| < |packets|
    ensures With(packets, fates + [last], fate) == With(packets, fates, fate) + if last == fate then [packets[|fates|]] else []
  {
    assert (fates + [last])[..|fates|] == fates;
  }

  // Flushing the rest of the arrivals delivers exactly what the flush returns.
  lemma {:induction false} WithFlush(packets: seq<Packet>, fates: seq<Fate>, n: nat, now: int, ttl: int)
    requires |fates| + n == |packets|
    ensures With(packets, fates + FlushFates(packets[|fates|..], now, ttl), Delivered)
            == With(packets, fates, Delivered) + Fresh(packets[|fates|..], now, ttl)
    decreases n
  {
    var buf := packets[|fates|..];
    if n == 0 {
      assert fates + FlushFates(buf, now, ttl) == fates;
    } else {
      var shorter := packets[..|packets| - 1];
      var before, last := fates + FlushFates(buf[..n - 1], now, ttl), if InTime(buf[n - 1], now, ttl) then Delivered else Expired;
      WithFlush(shorter, fates, n - 1, now, ttl);
      assert shorter[|fates|..] == buf[..n - 1];
      assert fates + FlushFates(buf, now, ttl) == before + [last] by { FlushFatesNext(buf, now, ttl); }
      WithNext(packets, before, last, Delivered);
      WithPrefix(shorter, packets, before, Delivered);
      WithPrefix(shorter, packets, fates, Delivered);
    }
  }

  // Every packet that left the buffer has exactly one fate.
  lemma {:induction false} Conservation(packets: seq<Packet>, fates: seq<Fate>)
    requires |fates| <= |packets|
    ensures |With(packets, fates, Delivered)| + |With(packets, fates, Overflowed)| + |With(packets, fates, Expired)| == |fates|
    decreases |fates|
  {
    if fates == [] {
    } else {
      Conservation(packets, fates[..|fates| - 1]);
    }
  }

  // A flush returns the packets younger than the limit, each as often as it is buffered, and none other.
  lemma {:induction false} FreshMeans(buf: seq<Packet>, now: int, ttl: int, p: Packet)
    ensures multiset(Fresh(buf, now, ttl))[p] == if now - p.timestamp < ttl then multiset(buf)[p] else 0
  {
    if buf == [] {
    } else {
      var before, last := buf[..|buf| - 1], buf[|buf| - 1];
      FreshMeans(before, now, ttl, p);
      assert buf == before + [last];
    }
  }

  // With a clock that does not run backwards a flush loses the oldest: it returns a suffix of the buffer.
  lemma {:induction false} FreshIsSuffix(buf: seq<Packet>, now: int, ttl: int)
    requires forall i, j :: 0 <= i < j < |buf| ==> buf[i].timestamp <= buf[j].timestamp
    ensures |Fresh(buf, now, ttl)| <= |buf| && Fresh(buf, now, ttl) == buf[|buf| - |Fresh(buf, now, ttl)|..]
  {
    if buf == [] {
    } else {
      var before, last := buf[..|buf| - 1], buf[|buf| - 1];
      FreshIsSuffix(before, now, ttl);
      if !InTime(last, now, ttl) {
        NoneFresh(before, now, ttl);
      } else {
        assert buf == before + [last];
      }
    }
  }

  lemma {:induction false} NoneFresh(buf: seq<Packet>, now: int, ttl: int)
    requires forall i :: 0 <= i < |buf| ==> !InTime(buf[i], now, ttl)
    ensures Fresh(buf, now, ttl) == []
  {
    if buf == [] {
    } else {
      NoneFresh(buf[..|buf| - 1], now, ttl);
    }
  }

  // One UE's packets: all that arrived, the fates of those gone, all that flushes returned.
  datatype Record = Record(arrived: seq<Packet>, fates: seq<Fate>, returned: seq<Packet>) {
    // The buffer is what arrived and has not gone: first in, first out. What was returned is what was
    // delivered, each once and in order.
    ghost predicate Explains(buf: seq<Packet>, max: nat) {
      && |fates| + |buf| == |arrived| && |buf| <= max
      && buf == arrived[|fates|..]
      && returned == With(arrived, fates, Delivered)
    }

    // After an arrival: a full buffer lost its oldest packet.
    function Arrived(buf: seq<Packet>, max: nat, p: Packet): Record {
      Record(arrived + [p], if |buf| < max then fates else fates + [Overflowed], returned)
    }

    // After a flush.
    function Flushed(buf: seq<Packet>, now: int, ttl: int): Record {
      Record(arrived, fates + FlushFates(buf, now, ttl), returned + Fresh(buf, now, ttl))
    }
  }

  // The buffer with room for one more packet.
  function Room(buf: seq<Packet>, max: nat): seq<Packet>
    requires 0 < max
  {
    if |buf| < max then buf else buf[1..]
  }

  lemma ArrivalExplained(r: Record, buf: seq<Packet>, max: nat, p: Packet)
    requires 0 < max && r.Explains(buf, max)
    ensures r.Arrived(buf, max, p).Explains(Room(buf, max) + [p], max)
  {
    var arrived := r.arrived + [p];
    WithPrefix(r.arrived, arrived, r.fates, Delivered);
    assert (r.fates + [Overflowed])[..|r.fates|] == r.fates;
  }

  lemma FlushExplained(r: Record, buf: seq<Packet>, max: nat, now: int, ttl: int)
    requires r.Explains(buf, max)
    ensures r.Flushed(buf, now, ttl).Explains([], max)
  {
    WithFlush(r.arrived, r.fates, |buf|, now, ttl);
  }

  function BufferOf(buffers: map<string, seq<Packet>>, imsi: string): seq<Packet> {
    if imsi in buffers then buffers[imsi] else []
  }

  function RecordIn(records: map<string, Record>, imsi: string): Record {
    if imsi in records then records[imsi] else Record([], [], [])
  }

  // The records explain the buffers of all UEs.
  ghost predicate Explained(buffers: map<string, seq<Packet>>, records: map<string, Record>, max: nat) {
    forall imsi :: RecordIn(records, imsi).Explains(BufferOf(buffers, imsi), max)
  }

  ghost predicate SameBut<V>(imsi: string, m: map<string, V>, n: map<string, V>) {
    forall x :: x != imsi ==> (x in m <==> x in n) && (x in m && x in n ==> m[x] == n[x])
  }

  lemma OneExplained(buffers: map<string, seq<Packet>>, records: map<string, Record>,
                     buffers': map<string, seq<Packet>>, records': map<string, Record>, imsi: string, max: nat)
    requires Explained(buffers, records, max) && SameBut(imsi, buffers, buffers') && SameBut(imsi, records, records')
    requires RecordIn(records', imsi).Explains(BufferOf(buffers', imsi), max)
    ensures Explained(buffers', records', max)
  {
    forall x ensures RecordIn(records', x).Explains(BufferOf(buffers', x), max) {
      if x != imsi { assert RecordIn(records, x).Explains(BufferOf(buffers, x), max); }
    }
  }

  method Collect(buf: seq<Packet>, now: int, ttl: int) returns (valid: seq<Packet>)
    ensures valid == Fresh(buf, now, ttl)
  {
    valid := [];
    for i := 0 to |buf|
      invariant valid == Fresh(buf[..i], now, ttl)
    {
      assert buf[..i + 1][..i] == buf[..i];
      if now - buf[i].timestamp < ttl {
        valid := valid + [buf[i]];
      }
    }
    assert buf[..|buf|] == buf;
  }

  class CoverageManager {
    var dlBuffer: map<string, seq<Packet>>
    const maxBufferPerUe: nat := 100
    const bufferTtl: int := 3600
    ghost var records: map<string, Record>

    function Buffered(imsi: string): seq<Packet>
      reads this
    {
      BufferOf(dlBuffer, imsi)
    }

    ghost function RecordOf(imsi: string): Record
      reads this
    {
      RecordIn(records, imsi)
    }

    ghost predicate Valid()
      reads this
    {
      Explained(dlBuffer, records, maxBufferPerUe)
    }

    constructor ()
      ensures Valid() && dlBuffer == map[] && records == map[]
    {
      dlBuffer, records := map[], map[];
    }

    ghost predicate OthersKept(imsi: string, buffers: map<string, seq<Packet>>, before: map<string, Record>)
      reads this
    {
      SameBut(imsi, buffers, dlBuffer) && SameBut(imsi, before, records)
    }

    // BufferDLPacket: a full buffer first drops its oldest packet.
    method BufferDLPacket(imsi: string, data: int, now: int)
      requires Valid()
      modifies this
      ensures Valid() && OthersKept(imsi, old(dlBuffer), old(records))
      ensures Buffered(imsi) == Room(old(Buffered(imsi)), maxBufferPerUe) + [Packet(now, data)]
      ensures RecordOf(imsi) == old(RecordOf(imsi)).Arrived(old(Buffered(imsi)), maxBufferPerUe, Packet(now, data))
    {
      ghost var buffers, before, r := dlBuffer, records, RecordOf(imsi);
      var buf := Buffered(imsi);
      ArrivalExplained(r, buf, maxBufferPerUe, Packet(now, data));
      records := records[imsi := r.Arrived(buf, maxBufferPerUe, Packet(now, data))];
      if |buf| >= maxBufferPerUe {
        buf := buf[1..];
      }
      dlBuffer := dlBuffer[imsi := buf + [Packet(now, data)]];
      OneExplained(buffers, before, dlBuffer, records, imsi, maxBufferPerUe);
    }

    // FlushDLBuffer: empty the buffer and return what is still in time.
    method FlushDLBuffer(imsi: string, now: int) returns (valid: seq<Packet>)
      requires Valid()
      modifies this
      ensures Valid() && OthersKept(imsi, old(dlBuffer), old(records))
      ensures Buffered(imsi) == []
      ensures valid == Fresh(old(Buffered(imsi)), now, bufferTtl)
      ensures RecordOf(imsi) == old(RecordOf(imsi)).Flushed(old(Buffered(imsi)), now, bufferTtl)
    {
      ghost var buffers, before, r := dlBuffer, records, RecordOf(imsi);
      var buf := Buffered(imsi);
      dlBuffer := dlBuffer - {imsi};
      valid := Collect(buf, now, bufferTtl);
      FlushExplained(r, buf, maxBufferPerUe, now, bufferTtl);
      records := records[imsi := r.Flushed(buf, now, bufferTtl)];
      OneExplained(buffers, before, dlBuffer, records, imsi, maxBufferPerUe);
    }
  }

  // ---- Feeder links ----

  datatype Link = Link(gs: string, gnbIp: string, since: int)
  datatype Switch = Switch(sat: string, from: string, to: string, timestamp: int)

  // The switches of one satellite, in order.
  function SwitchesOf(history: seq<Switch>, sat: string): seq<Switch> {
    if history == [] then [] else
      var s := history[|history| - 1];
      SwitchesOf(history[..|history| - 1], sat) + if s.sat == sat then [s] else []
  }

  // A way from one ground station through the switches to another: each starts where the one before ended.
  predicate Leads(first: string, switches: seq<Switch>, last: string) {
    if switches == [] then first == last else
      var s := switches[|switches| - 1];
      s.to == last && s.from != s.to && Leads(first, switches[..|switches| - 1], s.from)
  }

  lemma {:induction false} LeadsMeans(first: string, switches: seq<Switch>, last: string)
    ensures Leads(first, switches, last) <==>
            && (switches == [] ==> first == last)
            && (switches != [] ==> switches[0].from == first && switches[|switches| - 1].to == last)
            && (forall i :: 0 <= i < |switches| ==> switches[i].from != switches[i].to)
            && (forall i :: 0 < i < |switches| ==> switches[i].from == switches[i - 1].to)
  {
    if switches == [] {
    } else {
      var before, s := switches[..|switches| - 1], switches[|switches| - 1];
      LeadsMeans(first, before, s.from);
      assert forall i :: 0 <= i < |before| ==> before[i] == switches[i];
    }
  }

  lemma SwitchAdded(history: seq<Switch>, s: Switch, sat: string)
    ensures SwitchesOf(history + [s], sat) == SwitchesOf(history, sat) + if s.sat == sat then [s] else []
  {
    assert (history + [s])[..|history|] == history;
  }

  // Per satellite, the switches lead from its first ground station to that of its active link.
  ghost predicate Traced(links: map<string, Link>, history: seq<Switch>, firsts: map<string, string>) {
    && (forall sat :: sat in links <==> sat in firsts)
    && (forall sat :: sat in links ==> Leads(firsts[sat], SwitchesOf(history, sat), links[sat].gs))
    && (forall sat :: sat !in links ==> SwitchesOf(history, sat) == [])
  }

  lemma TracedFirst(links: map<string, Link>, history: seq<Switch>, firsts: map<string, string>, sat: string, link: Link)
    requires Traced(links, history, firsts) && sat !in links
    ensures Traced(links[sat := link], history, firsts[sat := link.gs])
  {
  }

  lemma TracedSame(links: map<string, Link>, history: seq<Switch>, firsts: map<string, string>, sat: string, link: Link)
    requires Traced(links, history, firsts) && sat in links && links[sat].gs == link.gs
    ensures Traced(links[sat := link], history, firsts)
  {
  }

  lemma TracedSwitch(links: map<string, Link>, history: seq<Switch>, firsts: map<string, string>, sat: string, link: Link, now: int)
    requires Traced(links, history, firsts) && sat in links && links[sat].gs != link.gs
    ensures Traced(links[sat := link], history + [Switch(sat, links[sat].gs, link.gs, now)], firsts)
  {
    var s := Switch(sat, links[sat].gs, link.gs, now);
    LeadsOn(firsts[sat], SwitchesOf(history, sat), s);
    forall x | x in links
      ensures Leads(firsts[x], SwitchesOf(history + [s], x), links[sat := link][x].gs)
    {
      SwitchAdded(history, s, x);
      assert SwitchesOf(history, x) + [] == SwitchesOf(history, x);
    }
    forall x | x !in links
      ensures SwitchesOf(history + [s], x) == []
    {
      SwitchAdded(history, s, x);
    }
  }

  lemma LeadsOn(first: string, switches: seq<Switch>, s: Switch)
    requires Leads(first, switches, s.from) && s.from != s.to
    ensures Leads(first, switches + [s], s.to)
  {
    assert (switches + [s])[..|switches|] == switches;
  }

  class FeederLinkManager {
    var activeLinks: map<string, Link>
    var switchHistory: seq<Switch>
    // The ground station each satellite was first registered with.
    ghost var firsts: map<string, string>

    ghost predicate Valid()
      reads this
    {
      Traced(activeLinks, switchHistory, firsts)
    }

    constructor ()
      ensures Valid() && activeLinks == map[] && switchHistory == []
    {
      activeLinks, switchHistory, firsts := map[], [], map[];
    }

    // RegisterFeederLink: returns the link it replaces when that was to another ground station, and only then
    // records a switch.
    method RegisterFeederLink(sat: string, gs: string, gnbIp: string, now: int) returns (replaced: Option<Link>)
      requires Valid()
      modifies this
      ensures Valid() && activeLinks == old(activeLinks)[sat := Link(gs, gnbIp, now)]
      ensures replaced == if sat in old(activeLinks) && old(activeLinks)[sat].gs != gs then Some(old(activeLinks)[sat]) else None
      ensures switchHistory == old(switchHistory) + if replaced.Some? then [Switch(sat, replaced.value.gs, gs, now)] else []
      ensures firsts == if sat in old(firsts) then old(firsts) else old(firsts)[sat := gs]
    {
      var link := Link(gs, gnbIp, now);
      var previous := if sat in activeLinks then Some(activeLinks[sat]) else None;
      activeLinks := activeLinks[sat := link];
      replaced := None;
      if previous.None? {
        TracedFirst(old(activeLinks), switchHistory, firsts, sat, link);
        firsts := firsts[sat := gs];
      } else if previous.value.gs != gs {
        TracedSwitch(old(activeLinks), switchHistory, firsts, sat, link, now);
        switchHistory := switchHistory + [Switch(sat, previous.value.gs, gs, now)];
        replaced := previous;
      } else {
        TracedSame(old(activeLinks), switchHistory, firsts, sat, link);
      }
    }

    method InitiateSwitch(sat: string, gs: string, gnbIp: string, now: int) returns (switched: bool)
      requires Valid()
      modifies this
      ensures Valid() && activeLinks == old(activeLinks)[sat := Link(gs, gnbIp, now)]
      ensures switched <==> sat in old(activeLinks) && old(activeLinks)[sat].gs != gs
      ensures switched <==> switchHistory != old(switchHistory)
    {
      var replaced := RegisterFeederLink(sat, gs, gnbIp, now);
      switched := replaced.Some?;
    }

    // GetSwitchHistory: the newest entries, 20 when no positive limit is given.
    function GetSwitchHistory(limit: int): (r: seq<Switch>)
      reads this
      ensures var n := if limit <= 0 then 20 else limit;
        |r| == if |switchHistory| <= n then |switchHistory| else n
      ensures r == switchHistory[|switchHistory| - |r|..]
    {
      var n := if limit <= 0 then 20 else limit;
      switchHistory[if |switchHistory| < n then 0 else |switchHistory| - n..]
    }
  }
}
