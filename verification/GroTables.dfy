/** The flow tables: every item describes a written buffer of its own. */
module GroTables {
  import opened Bytes
  import opened GroState
  import opened GroRules
  import opened GroRuns

  type TcpTable = map<TcpKey, seq<TcpItem>>
  type UdpTable = map<UdpKey, seq<UdpItem>>
  type Groups = map<nat, Group>

  ghost predicate TcpItemsOk(key: TcpKey, items: seq<TcpItem>, groups: Groups,
                             input: seq<seq<Byte>>, metas: TcpMetas) {
    && (forall j {:trigger items[j]} :: 0 <= j < |items| ==>
          && items[j].key == key && items[j].bufsIndex in groups
          && TcpItemOk(items[j], groups[items[j].bufsIndex], input, metas))
    && (forall i, j :: 0 <= i < j < |items| ==> items[i].bufsIndex < items[j].bufsIndex)
  }

  ghost predicate TcpTableOk(tcp: TcpTable, groups: Groups, input: seq<seq<Byte>>, metas: TcpMetas) {
    forall key {:trigger tcp[key]} :: key in tcp ==> TcpItemsOk(key, tcp[key], groups, input, metas)
  }

  /** Groups change only where they track t, or are new. */
  ghost predicate OnlyTracking(groups: Groups, groups': Groups, t: Tracking) {
    forall v {:trigger groups[v]} :: v in groups && groups[v].tracking != t ==>
      v in groups' && groups'[v] == groups[v]
  }

  lemma TcpItemsKept(key: TcpKey, items: seq<TcpItem>, groups: Groups, groups': Groups, t: Tracking,
                     input: seq<seq<Byte>>, metas: TcpMetas)
    requires TcpItemsOk(key, items, groups, input, metas) && OnlyTracking(groups, groups', t) && t != InTcp(key)
    ensures TcpItemsOk(key, items, groups', input, metas)
  {
    forall j | 0 <= j < |items|
      ensures items[j].bufsIndex in groups' && groups'[items[j].bufsIndex] == groups[items[j].bufsIndex]
    {
    }
  }

  /** Work on one flow leaves the other flows alone. */
  lemma TcpTableUpdated(tcp: TcpTable, groups: Groups, groups': Groups, key: TcpKey, items: seq<TcpItem>,
                        input: seq<seq<Byte>>, metas: TcpMetas)
    requires TcpTableOk(tcp, groups, input, metas) && OnlyTracking(groups, groups', InTcp(key))
    requires TcpItemsOk(key, items, groups', input, metas)
    ensures TcpTableOk(tcp[key := items], groups', input, metas)
  {
    forall other | other in tcp && other != key
      ensures TcpItemsOk(other, tcp[other], groups', input, metas)
    {
      TcpItemsKept(other, tcp[other], groups, groups', InTcp(key), input, metas);
    }
  }

  lemma TcpTableKept(tcp: TcpTable, groups: Groups, groups': Groups, t: Tracking,
                     input: seq<seq<Byte>>, metas: TcpMetas)
    requires TcpTableOk(tcp, groups, input, metas) && OnlyTracking(groups, groups', t) && !t.InTcp?
    ensures TcpTableOk(tcp, groups', input, metas)
  {
    forall key | key in tcp ensures TcpItemsOk(key, tcp[key], groups', input, metas) {
      TcpItemsKept(key, tcp[key], groups, groups', t, input, metas);
    }
  }

  lemma TcpItemMetas(item: TcpItem, g: Group, input: seq<seq<Byte>>, metas: TcpMetas, k: nat, m: TcpMeta)
    requires TcpItemOk(item, g, input, metas) && k !in metas
    ensures TcpItemOk(item, g, input, metas[k := m])
  {
    var metas' := metas[k := m];
    forall j | 0 <= j < |g.members| ensures g.members[j] in metas && metas'[g.members[j]] == metas[g.members[j]] {
    }
  }

  lemma TcpTableMetas(tcp: TcpTable, groups: Groups, input: seq<seq<Byte>>, metas: TcpMetas, k: nat, m: TcpMeta)
    requires TcpTableOk(tcp, groups, input, metas) && k !in metas
    ensures TcpTableOk(tcp, groups, input, metas[k := m])
  {
    forall key | key in tcp ensures TcpItemsOk(key, tcp[key], groups, input, metas[k := m]) {
      var items := tcp[key];
      forall j | 0 <= j < |items| ensures TcpItemOk(items[j], groups[items[j].bufsIndex], input, metas[k := m]) {
        TcpItemMetas(items[j], groups[items[j].bufsIndex], input, metas, k, m);
      }
    }
  }

  // ----- UDP

  /** All datagrams held by a flow's items, item after item. */
  function Held(items: seq<UdpItem>, groups: Groups): seq<nat>
    requires forall j :: 0 <= j < |items| ==> items[j].bufsIndex in groups
  {
    if items == [] then []
    else Held(items[..|items| - 1], groups) + groups[items[|items| - 1].bufsIndex].members
  }

  /** The flow's datagrams among the first n packets, in arrival order. */
  function Arrivals(entered: map<nat, UdpKey>, key: UdpKey, n: nat): seq<nat> {
    if n == 0 then []
    else Arrivals(entered, key, n - 1) + if n - 1 in entered && entered[n - 1] == key then [n - 1] else []
  }

  ghost predicate UdpItemsOk(key: UdpKey, items: seq<UdpItem>, groups: Groups, input: seq<seq<Byte>>) {
    && items != []
    && (forall j {:trigger items[j]} :: 0 <= j < |items| ==>
          && items[j].key == key && items[j].bufsIndex in groups
          && UdpItemOk(items[j], groups[items[j].bufsIndex], input))
    && (forall i, j :: 0 <= i < j < |items| ==> items[i].bufsIndex != items[j].bufsIndex)
  }

  /** The flow's items hold exactly its datagrams, in arrival order. */
  ghost predicate UdpFlowOk(key: UdpKey, items: seq<UdpItem>, groups: Groups, input: seq<seq<Byte>>,
                            entered: map<nat, UdpKey>, n: nat) {
    UdpItemsOk(key, items, groups, input) && Held(items, groups) == Arrivals(entered, key, n)
  }

  ghost predicate UdpTableOk(udp: UdpTable, groups: Groups, input: seq<seq<Byte>>,
                             entered: map<nat, UdpKey>, n: nat) {
    && (forall key {:trigger udp[key]} :: key in udp ==>
          UdpFlowOk(key, udp[key], groups, input, entered, n))
    && (forall k :: k in entered ==> k < n && entered[k] in udp)
  }

  lemma {:induction false} HeldKept(items: seq<UdpItem>, groups: Groups, groups': Groups)
    requires forall j :: 0 <= j < |items| ==> items[j].bufsIndex in groups && items[j].bufsIndex in groups'
    requires forall j :: 0 <= j < |items| ==>
      groups'[items[j].bufsIndex].members == groups[items[j].bufsIndex].members
    ensures Held(items, groups') == Held(items, groups)
  {
    if items != [] { HeldKept(items[..|items| - 1], groups, groups'); }
  }

  lemma UdpItemsKept(key: UdpKey, items: seq<UdpItem>, groups: Groups, groups': Groups, t: Tracking,
                     input: seq<seq<Byte>>)
    requires UdpItemsOk(key, items, groups, input) && OnlyTracking(groups, groups', t) && t != InUdp(key)
    ensures UdpItemsOk(key, items, groups', input) && Held(items, groups') == Held(items, groups)
  {
    forall j | 0 <= j < |items|
      ensures items[j].bufsIndex in groups' && groups'[items[j].bufsIndex] == groups[items[j].bufsIndex]
    {
    }
    HeldKept(items, groups, groups');
  }

  lemma {:induction false} ArrivalsKept(entered: map<nat, UdpKey>, key: UdpKey, n: nat, k: nat, other: UdpKey)
    requires k >= n
    ensures Arrivals(entered[k := other], key, n) == Arrivals(entered, key, n)
  {
    if n > 0 { ArrivalsKept(entered, key, n - 1, k, other); }
  }

  /** A packet that is no datagram leaves every flow alone. */
  lemma UdpTableKept(udp: UdpTable, groups: Groups, groups': Groups, t: Tracking,
                     input: seq<seq<Byte>>, entered: map<nat, UdpKey>, n: nat)
    requires UdpTableOk(udp, groups, input, entered, n) && OnlyTracking(groups, groups', t) && !t.InUdp?
    ensures UdpTableOk(udp, groups', input, entered, n)
    ensures UdpTableOk(udp, groups', input, entered, n + 1)
  {
    assert n !in entered;
    forall key | key in udp
      ensures UdpFlowOk(key, udp[key], groups', input, entered, n)
      ensures UdpFlowOk(key, udp[key], groups', input, entered, n + 1)
    {
      UdpItemsKept(key, udp[key], groups, groups', t, input);
    }
  }

  lemma UdpFlowKept(key: UdpKey, items: seq<UdpItem>, groups: Groups, groups': Groups, t: UdpKey,
                    input: seq<seq<Byte>>, entered: map<nat, UdpKey>, n: nat)
    requires UdpFlowOk(key, items, groups, input, entered, n)
    requires OnlyTracking(groups, groups', InUdp(t)) && t != key
    ensures UdpFlowOk(key, items, groups', input, entered[n := t], n + 1)
  {
    UdpItemsKept(key, items, groups, groups', InUdp(t), input);
    ArrivalsKept(entered, key, n, n, t);
  }

  lemma ArrivesLast(entered: map<nat, UdpKey>, key: UdpKey, n: nat)
    ensures Arrivals(entered[n := key], key, n + 1) == Arrivals(entered, key, n) + [n]
  {
    ArrivalsKept(entered, key, n, n, key);
  }

  /** Datagram n of a flow, now held last. */
  lemma UdpTableUpdated(udp: UdpTable, groups: Groups, groups': Groups, key: UdpKey, items: seq<UdpItem>,
                        input: seq<seq<Byte>>, entered: map<nat, UdpKey>, n: nat)
    requires UdpTableOk(udp, groups, input, entered, n) && OnlyTracking(groups, groups', InUdp(key))
    requires UdpItemsOk(key, items, groups', input)
    requires Held(items, groups') == Arrivals(entered, key, n) + [n]
    ensures UdpTableOk(udp[key := items], groups', input, entered[n := key], n + 1)
  {
    hide UdpItemsOk, Held, Arrivals, OnlyTracking;
    var entered' := entered[n := key];
    ArrivesLast(entered, key, n);
    assert UdpFlowOk(key, items, groups', input, entered', n + 1);
    forall other | other in udp && other != key
      ensures UdpFlowOk(other, udp[other], groups', input, entered', n + 1)
    {
      UdpFlowKept(other, udp[other], groups, groups', key, input, entered, n);
    }
  }
}
