/** The accounting pass over the flow tables: whose buffers it touches, and that every item gets its turn. */
module GroFlows {
  import opened Bytes
  import opened Gso
  import opened GroState
  import opened GroRuns
  import opened GroTables
  import opened GroSteps
  import opened GroTcpSteps
  import opened GroAccount

  /** The accounting of an item, in the terms of its packet. */
  function TcpJob(item: TcpItem): Job {
    Job(item.bufsIndex, item.numMerged > 0,
        Header(true, item.iphLen + item.tcphLen, item.gsoSize, item.iphLen), item.key.isV6)
  }

  function UdpJob(item: UdpItem): Job {
    Job(item.bufsIndex, item.numMerged > 0, Header(false, item.iphLen + 8, item.gsoSize, item.iphLen), item.key.isV6)
  }

  function TcpJobs(items: seq<TcpItem>): (jobs: seq<Job>)
    ensures |jobs| == |items|
    ensures forall j :: 0 <= j < |items| ==> jobs[j] == TcpJob(items[j])
  {
    seq(|items|, j requires 0 <= j < |items| => TcpJob(items[j]))
  }

  function UdpJobs(items: seq<UdpItem>): (jobs: seq<Job>)
    ensures |jobs| == |items|
    ensures forall j :: 0 <= j < |items| ==> jobs[j] == UdpJob(items[j])
  {
    seq(|items|, j requires 0 <= j < |items| => UdpJob(items[j]))
  }

  ghost function TcpFlows(tcp: TcpTable): set<Tracking> { set key | key in tcp :: InTcp(key) }

  ghost function UdpFlows(udp: UdpTable): set<Tracking> { set key | key in udp :: InUdp(key) }

  /** The accounting that the items of a flow call for. */
  function JobsFor(tcp: TcpTable, udp: UdpTable, flow: Tracking): seq<Job> {
    match flow
    case InTcp(key) => if key in tcp then TcpJobs(tcp[key]) else []
    case InUdp(key) => if key in udp then UdpJobs(udp[key]) else []
    case Loose => []
  }

  ghost predicate AccountedFor(tcp: TcpTable, udp: UdpTable, flows: set<Tracking>, before: seq<Buf>, after: seq<Buf>,
                               hdrs: map<nat, Written>) {
    forall flow {:trigger JobsFor(tcp, udp, flow)} :: flow in flows ==>
      AllDone(JobsFor(tcp, udp, flow), before, after, hdrs)
  }

  /** Only buffers of these flows have been touched. */
  ghost predicate Pending(groups: Groups, flows: set<Tracking>, before: seq<Buf>, after: seq<Buf>,
                          hdrs: map<nat, Written>, hdrs': map<nat, Written>) {
    && |before| == |after|
    && forall v: nat {:trigger SameSlot(v, before, after, hdrs, hdrs')} ::
         v < |before| && !(v in groups && groups[v].tracking in flows) ==> SameSlot(v, before, after, hdrs, hdrs')
  }

  /** Every flow's buffers are tracked by that flow. */
  ghost predicate FlowsTracked(tcp: TcpTable, udp: UdpTable, groups: Groups, n: nat) {
    forall flow {:trigger JobsFor(tcp, udp, flow)} :: JobsTracked(JobsFor(tcp, udp, flow), groups, flow, n)
  }

  lemma AccountStart(tcp: TcpTable, udp: UdpTable, groups: Groups, bufs: seq<Buf>, hdrs: map<nat, Written>)
    ensures AccountedFor(tcp, udp, {}, bufs, bufs, hdrs) && Pending(groups, {}, bufs, bufs, hdrs, hdrs)
  {}

  lemma TcpJobsOk(bufs: seq<Buf>, tcp: TcpTable, udp: UdpTable, toWrite: seq<nat>, t: Trace, env: Env, key: TcpKey)
    requires Inv(bufs, tcp, udp, toWrite, t, env) && key in tcp
    ensures JobsOk(TcpJobs(tcp[key]), t.groups, bufs, InTcp(key))
  {
    hide UdpTableOk, TraceTrue, GroupsVerified;
    var items := tcp[key];
    assert TcpItemsOk(key, items, t.groups, env.input, t.metas);
    forall j | 0 <= j < |items| ensures JobOk(TcpJobs(items)[j], t.groups, bufs, InTcp(key)) {
      TcpJobOk(bufs, tcp, toWrite, t, env, key, j);
    }
  }

  lemma TcpJobOk(bufs: seq<Buf>, tcp: TcpTable, toWrite: seq<nat>, t: Trace, env: Env, key: TcpKey, j: nat)
    requires Conserved(bufs, env.input, toWrite, t.groups, t.owner) && BufsFit(bufs, env.offset)
    requires TcpTableOk(tcp, t.groups, env.input, t.metas) && key in tcp && j < |tcp[key]|
    ensures JobOk(TcpJob(tcp[key][j]), t.groups, bufs, InTcp(key))
  {
    ItemFacts(bufs, tcp, toWrite, t, env, key, j);
  }

  lemma UdpJobsOk(bufs: seq<Buf>, tcp: TcpTable, udp: UdpTable, toWrite: seq<nat>, t: Trace, env: Env, key: UdpKey)
    requires Inv(bufs, tcp, udp, toWrite, t, env) && key in udp
    ensures JobsOk(UdpJobs(udp[key]), t.groups, bufs, InUdp(key))
  {
    hide TcpTableOk, TraceTrue, GroupsVerified, JobOk, UdpItemOk, GroupOk, Held, Arrivals;
    var items := udp[key];
    assert UdpFlowOk(key, items, t.groups, env.input, t.entered, |t.owner|);
    forall j | 0 <= j < |items| ensures JobOk(UdpJobs(items)[j], t.groups, bufs, InUdp(key)) {
      UdpJobOk(bufs, env.input, toWrite, t, env.offset, key, items[j]);
    }
  }

  lemma UdpJobOk(bufs: seq<Buf>, input: seq<seq<Byte>>, toWrite: seq<nat>, t: Trace, offset: nat, key: UdpKey,
                 item: UdpItem)
    requires Conserved(bufs, input, toWrite, t.groups, t.owner) && BufsFit(bufs, offset)
    requires item.key == key && item.bufsIndex in t.groups && UdpItemOk(item, t.groups[item.bufsIndex], input)
    ensures JobOk(UdpJob(item), t.groups, bufs, InUdp(key))
  {
    assert GroupOk(item.bufsIndex, t.groups[item.bufsIndex], bufs[item.bufsIndex].pkt, input, t.owner);
  }

  lemma Tracked(bufs: seq<Buf>, tcp: TcpTable, udp: UdpTable, toWrite: seq<nat>, t: Trace, env: Env)
    requires Inv(bufs, tcp, udp, toWrite, t, env)
    ensures FlowsTracked(tcp, udp, t.groups, |bufs|)
  {
    hide Inv, JobsOk;
    forall flow ensures JobsTracked(JobsFor(tcp, udp, flow), t.groups, flow, |bufs|) {
      match flow
      case InTcp(key) =>
        if key in tcp {
          TcpJobsOk(bufs, tcp, udp, toWrite, t, env, key);
          JobsOkTracked(TcpJobs(tcp[key]), t.groups, bufs, flow);
        }
      case InUdp(key) =>
        if key in udp {
          UdpJobsOk(bufs, tcp, udp, toWrite, t, env, key);
          JobsOkTracked(UdpJobs(udp[key]), t.groups, bufs, flow);
        }
      case Loose =>
    }
  }

  /** Accounting for one more flow. */
  lemma FlowAccounted(tcp: TcpTable, udp: UdpTable, flow: Tracking, done: set<Tracking>, groups: Groups,
                      before: seq<Buf>, mid: seq<Buf>, after: seq<Buf>,
                      hdrs0: map<nat, Written>, hdrs: map<nat, Written>, hdrs': map<nat, Written>)
    requires flow !in done && FlowsTracked(tcp, udp, groups, |before|) && |before| == |mid| == |after|
    requires AccountedFor(tcp, udp, done, before, mid, hdrs) && Pending(groups, done, before, mid, hdrs0, hdrs)
    requires AllDone(JobsFor(tcp, udp, flow), mid, after, hdrs') && OthersKept(groups, flow, mid, after, hdrs, hdrs')
    ensures AccountedFor(tcp, udp, done + {flow}, before, after, hdrs')
    ensures Pending(groups, done + {flow}, before, after, hdrs0, hdrs')
  {
    hide AllDone, Done, JobsFor;
    AccountedEarlier(tcp, udp, flow, done, groups, before, mid, after, hdrs, hdrs');
    UntouchedSoFar(JobsFor(tcp, udp, flow), flow, done, groups, before, mid, hdrs0, hdrs);
    AllDoneFrom(JobsFor(tcp, udp, flow), before, mid, after, hdrs');
    forall v: nat | v < |before| && !(v in groups && groups[v].tracking in done + {flow})
      ensures SameSlot(v, before, after, hdrs0, hdrs')
    {
      assert SameSlot(v, before, mid, hdrs0, hdrs) && SameSlot(v, mid, after, hdrs, hdrs');
    }
  }

  lemma AccountedEarlier(tcp: TcpTable, udp: UdpTable, flow: Tracking, done: set<Tracking>, groups: Groups,
                         before: seq<Buf>, mid: seq<Buf>, after: seq<Buf>,
                         hdrs: map<nat, Written>, hdrs': map<nat, Written>)
    requires flow !in done && FlowsTracked(tcp, udp, groups, |before|)
    requires AccountedFor(tcp, udp, done, before, mid, hdrs) && OthersKept(groups, flow, mid, after, hdrs, hdrs')
    ensures AccountedFor(tcp, udp, done, before, after, hdrs')
  {
    hide AllDone, JobsFor, JobsTracked, OthersKept;
    forall other | other in done ensures AllDone(JobsFor(tcp, udp, other), before, after, hdrs') {
      AllDoneKept(JobsFor(tcp, udp, other), groups, other, flow, before, mid, after, hdrs, hdrs');
    }
  }

  lemma UntouchedSoFar(jobs: seq<Job>, flow: Tracking, done: set<Tracking>, groups: Groups, before: seq<Buf>,
                       mid: seq<Buf>, hdrs0: map<nat, Written>, hdrs: map<nat, Written>)
    requires flow !in done && JobsTracked(jobs, groups, flow, |before|)
    requires Pending(groups, done, before, mid, hdrs0, hdrs)
    ensures forall j {:trigger jobs[j]} :: 0 <= j < |jobs| ==> jobs[j].w < |mid| && mid[jobs[j].w] == before[jobs[j].w]
  {
    forall j | 0 <= j < |jobs| ensures jobs[j].w < |mid| && mid[jobs[j].w] == before[jobs[j].w] {
      assert SameSlot(jobs[j].w, before, mid, hdrs0, hdrs);
    }
  }

  lemma FixedSize(p: seq<Byte>, r: seq<Byte>, hdr: Header, isV6: bool)
    requires hdr.Fits(isV6, |p|) && HeadersFixed(p, r, hdr, isV6)
    ensures SameBehind(r, p, hdr.hdrLen)
  {}

  lemma FlowStep(jobs: seq<Job>, i: nat, groups: Groups, tr: Tracking, before: seq<Buf>, mid: seq<Buf>, after: seq<Buf>,
                 hdrs0: map<nat, Written>, hdrs: map<nat, Written>, hdrs': map<nat, Written>)
    requires i < |jobs| && JobsOk(jobs, groups, before, tr) && |before| == |mid| == |after|
    requires AllDone(jobs[..i], before, mid, hdrs) && Done(jobs[i], mid, after, hdrs')
    requires forall j :: i <= j < |jobs| ==> mid[jobs[j].w] == before[jobs[j].w]
    requires OnlySlot(jobs[i].w, mid, after, hdrs, hdrs')
    requires OthersKept(groups, tr, before, mid, hdrs0, hdrs)
    ensures AllDone(jobs[..i + 1], before, after, hdrs')
    ensures forall j :: i < j < |jobs| ==> after[jobs[j].w] == before[jobs[j].w]
    ensures OthersKept(groups, tr, before, after, hdrs0, hdrs')
  {
    hide Done, HeadersFixed;
    DoneFrom(jobs[i], before, mid, after, hdrs');
    forall j | 0 <= j < i + 1 ensures Done(jobs[j], before, after, hdrs') {
      if j < i {
        assert jobs[..i][j] == jobs[j];
        assert JobOk(jobs[j], groups, before, tr);
        DoneKept(jobs[j], before, mid, after, hdrs, hdrs');
      }
    }
    assert JobOk(jobs[i], groups, before, tr);
    assert forall j {:trigger jobs[j]} :: i < j < |jobs| ==> SameSlot(jobs[j].w, mid, after, hdrs, hdrs');
    forall v: nat | v < |before| && !(v in groups && groups[v].tracking == tr)
      ensures SameSlot(v, before, after, hdrs0, hdrs')
    {
      assert SameSlot(v, before, mid, hdrs0, hdrs) && SameSlot(v, mid, after, hdrs, hdrs');
    }
  }

  /** Header bytes of a merged packet may change: its group holds more than one packet. */
  lemma StepAccount(bufs: seq<Buf>, tcp: TcpTable, udp: UdpTable, toWrite: seq<nat>, t: Trace, env: Env,
                    w: nat, r: seq<Byte>)
    requires Inv(bufs, tcp, udp, toWrite, t, env) && w in t.groups && w < |bufs| && |t.groups[w].members| > 1
    requires SameBehind(r, bufs[w].pkt, t.groups[w].h)
    ensures Inv(bufs[w := Buf(r, bufs[w].cap)], tcp, udp, toWrite, t, env)
  {
    hide TcpTableOk, UdpTableOk, TraceTrue, GroupsVerified;
    BufsFitSet(bufs, env.offset, w, Buf(r, bufs[w].cap));
    HeaderEdited(bufs, env.input, toWrite, t.groups, t.owner, w, r);
  }

  lemma HeaderEdited(bufs: seq<Buf>, input: seq<seq<Byte>>, toWrite: seq<nat>, groups: Groups, owner: seq<nat>,
                     w: nat, r: seq<Byte>)
    requires Conserved(bufs, input, toWrite, groups, owner) && w in groups && |groups[w].members| > 1
    requires SameBehind(r, bufs[w].pkt, groups[w].h)
    ensures Conserved(bufs[w := Buf(r, bufs[w].cap)], input, toWrite, groups, owner)
  {
    var bufs' := bufs[w := Buf(r, bufs[w].cap)];
    forall v | v in groups ensures GroupOk(v, groups[v], bufs'[v].pkt, input, owner) {
      assert GroupOk(v, groups[v], bufs[v].pkt, input, owner);
    }
  }

  /** The two passes after each other account for every flow: they touch different buffers. */
  lemma BothAccounted(tcp: TcpTable, udp: UdpTable, groups: Groups, before: seq<Buf>, mid: seq<Buf>, after: seq<Buf>,
                      hdrs: map<nat, Written>, hdrs': map<nat, Written>)
    requires FlowsTracked(tcp, udp, groups, |before|) && |before| == |mid| == |after|
    requires AccountedFor(tcp, udp, TcpFlows(tcp), before, mid, hdrs)
    requires AccountedFor(tcp, udp, UdpFlows(udp), mid, after, hdrs')
    requires exists hdrs0 :: Pending(groups, TcpFlows(tcp), before, mid, hdrs0, hdrs)
    requires Pending(groups, UdpFlows(udp), mid, after, hdrs, hdrs')
    ensures AccountedFor(tcp, udp, TcpFlows(tcp) + UdpFlows(udp), before, after, hdrs')
  {
    hide AllDone, JobsFor, Done;
    var hdrs0 :| Pending(groups, TcpFlows(tcp), before, mid, hdrs0, hdrs);
    forall flow | flow in TcpFlows(tcp) + UdpFlows(udp)
      ensures AllDone(JobsFor(tcp, udp, flow), before, after, hdrs')
    {
      var jobs := JobsFor(tcp, udp, flow);
      assert JobsTracked(jobs, groups, flow, |before|);
      if flow in TcpFlows(tcp) {
        TouchedByOthers(jobs, flow, UdpFlows(udp), groups, before, mid, after, hdrs, hdrs');
      } else {
        UntouchedSoFar(jobs, flow, TcpFlows(tcp), groups, before, mid, hdrs0, hdrs);
        AllDoneFrom(jobs, before, mid, after, hdrs');
      }
    }
  }

  lemma TouchedByOthers(jobs: seq<Job>, flow: Tracking, others: set<Tracking>, groups: Groups, before: seq<Buf>,
                        mid: seq<Buf>, after: seq<Buf>, hdrs: map<nat, Written>, hdrs': map<nat, Written>)
    requires flow !in others && JobsTracked(jobs, groups, flow, |before|) && |before| == |mid|
    requires AllDone(jobs, before, mid, hdrs) && Pending(groups, others, mid, after, hdrs, hdrs')
    ensures AllDone(jobs, before, after, hdrs')
  {
    forall j | 0 <= j < |jobs| ensures Done(jobs[j], before, after, hdrs') {
      DoneKept(jobs[j], before, mid, after, hdrs, hdrs');
    }
  }
}
