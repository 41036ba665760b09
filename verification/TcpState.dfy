/** The TCP state machine the connection table drives (internal/conntrack/table.go). */
module TcpState {
  import opened Util

  datatype Tcp = SynSent | SynReceived | Established | FinWait1 | FinWait2 | Closing | TimeWait | CloseWait | Closed

  /** What a flow remembers of its connection: the state, and the flag reported to the policy. */
  datatype Conn = Conn(tcp: Tcp, established: bool)

  const FRESH := Conn(SynSent, false)

  /** One packet on a flow. */
  function Transition(c: Conn, f: Flags): Conn {
    if f.rst then Conn(Closed, false)
    else if f.syn && f.ack && !f.fin then
      if c.tcp == SynSent then Conn(Established, true) else c
    else if f.syn && !f.ack && !f.fin then
      if c.tcp == SynSent then c.(tcp := SynReceived) else c
    else if f.fin && f.ack then
      match c.tcp
      case SynSent | SynReceived | Established => c.(tcp := FinWait1)
      case FinWait1 => c.(tcp := FinWait2)
      case FinWait2 => c.(tcp := TimeWait)
      case CloseWait => Conn(Closed, false)
      case _ => c
    else if f.fin then
      match c.tcp
      case Established => c.(tcp := FinWait1)
      case FinWait1 => c.(tcp := Closing)
      case _ => c
    else if f.ack then
      match c.tcp
      case SynSent => Conn(Established, true)
      case FinWait1 => c.(tcp := FinWait2)
      case Closing => c.(tcp := TimeWait)
      case TimeWait => Conn(Closed, false)
      case _ => c
    else c
  }

  /** The packet that creates a flow: one transition, and then the server-side override. */
  function Opening(f: Flags, isTcp: bool): Conn {
    var c := Transition(FRESH, f);
    if isTcp && !f.syn && !f.rst && !f.fin then c.(tcp := SynReceived) else c
  }

  function After(c: Conn, fs: seq<Flags>): Conn {
    if fs == [] then c else Transition(After(c, Front(fs)), Last(fs))
  }

  /** Only TCP flows know a server side: any other flow starts as if its first packet had met SYN_SENT. */
  lemma OtherProtocolsOpenPlainly(f: Flags)
    ensures Opening(f, false) == After(FRESH, [f])
  {
    assert Front([f]) == [] && After(FRESH, []) == FRESH;
  }

  // ----- every sequence of packets

  /** No two states of one rank follow each other. */
  function Rank(t: Tcp): nat {
    match t
    case SynSent => 0
    case SynReceived | Established => 1
    case FinWait1 => 2
    case FinWait2 | Closing | CloseWait => 3
    case TimeWait => 4
    case Closed => 5
  }

  /** How often the state changes along a sequence of packets. */
  function Changes(c: Conn, fs: seq<Flags>): nat {
    if fs == [] then 0
    else Changes(c, Front(fs)) + if After(c, fs).tcp != After(c, Front(fs)).tcp then 1 else 0
  }

  lemma {:induction false} ChangesClimb(c: Conn, fs: seq<Flags>)
    requires c.tcp != CloseWait
    ensures After(c, fs).tcp != CloseWait
    ensures Rank(c.tcp) + Changes(c, fs) <= Rank(After(c, fs).tcp) <= 5
    ensures c.tcp == Closed ==> After(c, fs).tcp == Closed
    decreases |fs|
  {
    if fs != [] {
      ChangesClimb(c, Front(fs));
    }
  }

  lemma {:induction false} AfterConcat(c: Conn, fs: seq<Flags>, gs: seq<Flags>)
    ensures After(c, fs + gs) == After(After(c, fs), gs)
    decreases |gs|
  {
    if gs == [] {
      assert fs + gs == fs;
    } else {
      AfterConcat(c, fs, Front(gs));
      assert Front(fs + gs) == fs + Front(gs);
    }
  }

  /** A RST closes the flow in every state, for good. */
  lemma {:induction false} RstCloses(c: Conn, fs: seq<Flags>, r: nat)
    requires r < |fs| && fs[r].rst
    ensures After(c, fs) == Conn(Closed, false)
    decreases |fs|
  {
    if r < |fs| - 1 {
      RstCloses(c, Front(fs), r);
    }
  }

  /** ESTABLISHED reports established, CLOSED does not, and the flag only rises on leaving SYN_SENT. */
  ghost predicate Coherent(c: Conn) {
    && c.tcp != CloseWait
    && (c.tcp == Established ==> c.established)
    && (c.tcp == Closed || c.tcp == SynSent ==> !c.established)
  }

  lemma {:induction false} StaysCoherent(c: Conn, fs: seq<Flags>)
    requires Coherent(c)
    ensures Coherent(After(c, fs))
    ensures !c.established && After(c, fs).established ==> c.tcp == SynSent
    decreases |fs|
  {
    if fs != [] {
      StaysCoherent(c, Front(fs));
      ChangesClimb(c, Front(fs));
    }
  }

  /** For every packet sequence on a new TCP flow: at most five state changes follow, CLOSED is
      final whenever it is reached, CLOSE_WAIT never occurs, and the reported flag stays coherent with
      the state. */
  lemma LifeOfAFlow(first: Flags, fs: seq<Flags>, more: seq<Flags>)
    ensures Changes(Opening(first, true), fs) <= 5
    ensures Coherent(After(Opening(first, true), fs))
    ensures After(Opening(first, true), fs).tcp == Closed ==> After(Opening(first, true), fs + more) == Conn(Closed, false)
  {
    var c := Opening(first, true);
    ChangesClimb(c, fs);
    StaysCoherent(c, fs);
    AfterConcat(c, fs, more);
    ChangesClimb(After(c, fs), more);
    StaysCoherent(After(c, fs), more);
  }

  /** Five changes do happen. */
  lemma FiveChanges()
    ensures exists first, fs :: Changes(Opening(first, true), fs) == 5
  {
    var synAck, ack := Flags(true, true, false, false), Flags(false, true, false, false);
    var finAck, synFin := Flags(false, true, false, true), Flags(true, false, false, true);
    var c := Opening(synFin, true);
    var f1 := [synAck];
    var f2, f3 := f1 + [finAck], f1 + [finAck, ack];
    var f4 := f3 + [finAck];
    var f5 := f4 + [ack];
    assert Front(f1) == [] && Front(f2) == f1 && Front(f3) == f2 && Front(f4) == f3 && Front(f5) == f4;
    assert Changes(c, []) == 0 && After(c, []) == FRESH;
    assert Changes(c, f1) == 1 && After(c, f1).tcp == Established;
    assert Changes(c, f2) == 2 && After(c, f2).tcp == FinWait1;
    assert Changes(c, f3) == 3 && After(c, f3).tcp == FinWait2;
    assert Changes(c, f4) == 4 && After(c, f4).tcp == TimeWait;
    assert Changes(c, f5) == 5;
  }

  /** A packet that leaves SYN_SENT as it is. */
  predicate Idle(f: Flags) {
    !f.rst && !f.ack && (f.fin || !f.syn)
  }

  /** A packet that moves SYN_SENT to ESTABLISHED. */
  predicate Confirms(f: Flags) {
    !f.rst && !f.fin && f.ack
  }

  /** The packets of a flow that does reach ESTABLISHED: a SYN-ACK opens it, or a FIN without ACK
      does and an acknowledgement is the first packet after it that is not idle. */
  predicate Confirmed(fs: seq<Flags>) {
    fs != [] && (Confirmed(Front(fs)) || (Confirms(Last(fs)) && if |fs| == 1 then fs[0].syn else Dormant(Front(fs))))
  }

  /** The flow is still in SYN_SENT. */
  predicate Dormant(fs: seq<Flags>) {
    fs != [] && fs[0].fin && forall i :: 0 <= i < |fs| ==> Idle(fs[i])
  }

  ghost predicate Reaches(fs: seq<Flags>) {
    exists k :: 1 <= k <= |fs| && Along(fs, k).tcp == Established
  }

  /** The connection after the first `k` packets of a TCP flow. */
  function Along(fs: seq<Flags>, k: nat): Conn
    requires 1 <= k <= |fs|
  {
    if k == 1 then Opening(fs[0], true) else Transition(Along(fs, k - 1), fs[k - 1])
  }

  lemma {:induction false} AlongFront(fs: seq<Flags>, k: nat)
    requires 1 <= k < |fs|
    ensures Along(fs, k) == Along(Front(fs), k)
    decreases k
  {
    if k > 1 {
      AlongFront(fs, k - 1);
    }
  }

  lemma {:induction false} DormantIsSynSent(fs: seq<Flags>)
    requires fs != []
    ensures Along(fs, |fs|).tcp == SynSent <==> Dormant(fs)
    decreases |fs|
  {
    if |fs| > 1 {
      DormantIsSynSent(Front(fs));
      AlongFront(fs, |fs| - 1);
      assert fs == Front(fs) + [Last(fs)];
    }
  }

  /** Exactly which flows ever reach ESTABLISHED. */
  lemma {:induction false} EstablishedExactly(fs: seq<Flags>)
    requires fs != []
    ensures Reaches(fs) <==> Confirmed(fs)
    decreases |fs|
  {
    var n := |fs|;
    if n == 1 {
      assert Reaches(fs) <==> Along(fs, 1).tcp == Established;
      assert !Confirmed(Front(fs));
    } else {
      var front := Front(fs);
      EstablishedExactly(front);
      DormantIsSynSent(front);
      forall k | 1 <= k < n
        ensures Along(fs, k) == Along(front, k)
      {
        AlongFront(fs, k);
      }
      assert Along(fs, n) == Transition(Along(front, n - 1), fs[n - 1]);
      if Reaches(front) {
        var k :| 1 <= k <= |front| && Along(front, k).tcp == Established;
        assert Along(fs, k).tcp == Established;
      }
      if Along(fs, n).tcp == Established && Along(front, n - 1).tcp == Established {
        assert Reaches(front);
      }
    }
  }

  // ----- how a flow closes

  lemma {:induction false} RstIsFinal(fs: seq<Flags>, r: nat, k: nat)
    requires r < k <= |fs| && fs[r].rst
    ensures Along(fs, k) == Conn(Closed, false)
    decreases k
  {
    if r < k - 1 {
      RstIsFinal(fs, r, k - 1);
    }
  }

  predicate FinAck(f: Flags) {
    f.fin && f.ack
  }

  predicate PureAck(f: Flags) {
    f.ack && !f.fin && !f.syn
  }

  /** The packet begins the close: a FIN-ACK, or a FIN of an established connection. */
  predicate Begins(fs: seq<Flags>, i: int)
    requires 0 <= i < |fs|
  {
    FinAck(fs[i]) || (fs[i].fin && Confirmed(fs[..i]))
  }

  /** The packet continues a close that has begun. */
  predicate Continues(f: Flags) {
    f.fin || PureAck(f)
  }

  /** After an acknowledged FIN another FIN-ACK is due; after crossing FINs, an ACK. */
  predicate Completes(answer: Flags, f: Flags) {
    if answer.ack then FinAck(f) else PureAck(f)
  }

  /** Packet `i` is the first to begin the close. */
  ghost predicate BeginsAt(fs: seq<Flags>, i: int) {
    0 <= i < |fs| && Begins(fs, i) && forall x :: 0 <= x < i ==> !Begins(fs, x)
  }

  /** ... and packet `j` the first to continue it. */
  ghost predicate AnsweredAt(fs: seq<Flags>, i: int, j: int) {
    BeginsAt(fs, i) && i < j < |fs| && Continues(fs[j]) && forall x :: i < x < j ==> !Continues(fs[x])
  }

  /** ... and packet `k` the first to complete it. */
  ghost predicate CompletedAt(fs: seq<Flags>, i: int, j: int, k: int) {
    AnsweredAt(fs, i, j) && j < k < |fs| && Completes(fs[j], fs[k]) && forall x :: j < x < k ==> !Completes(fs[j], fs[x])
  }

  ghost predicate AckedAfter(fs: seq<Flags>, k: int) {
    exists l :: 0 <= l && k < l < |fs| && PureAck(fs[l])
  }

  /** The four packets of an orderly close, of which the last is a pure ACK. */
  ghost predicate ClosesInOrder(fs: seq<Flags>) {
    exists i, j, k :: CompletedAt(fs, i, j, k) && AckedAfter(fs, k)
  }

  ghost predicate HasRst(fs: seq<Flags>) {
    exists r :: 0 <= r < |fs| && fs[r].rst
  }

  datatype Marks = Marks(i: int, j: int, k: int)

  /** What has happened on the flow when it is in the given state. */
  ghost predicate Stage(fs: seq<Flags>, t: Tcp, m: Marks) {
    match t
    case SynSent | SynReceived | Established =>
      (forall x :: 0 <= x < |fs| ==> !Begins(fs, x)) && (t == Established <==> Confirmed(fs))
    case FinWait1 => BeginsAt(fs, m.i) && forall x :: m.i < x < |fs| ==> !Continues(fs[x])
    case FinWait2 | Closing =>
      && AnsweredAt(fs, m.i, m.j) && (t == FinWait2 <==> fs[m.j].ack)
      && forall x :: m.j < x < |fs| ==> !Completes(fs[m.j], fs[x])
    case TimeWait => CompletedAt(fs, m.i, m.j, m.k) && !AckedAfter(fs, m.k)
    case Closed => CompletedAt(fs, m.i, m.j, m.k) && AckedAfter(fs, m.k)
    case CloseWait => false
  }

  lemma BeginsSame(fs: seq<Flags>, i: int)
    requires 0 <= i < |fs| - 1
    ensures Begins(fs, i) <==> Begins(Front(fs), i)
  {
    assert fs[..i] == Front(fs)[..i];
  }

  lemma MarksStay(fs: seq<Flags>, m: Marks)
    requires fs != []
    ensures BeginsAt(Front(fs), m.i) ==> BeginsAt(fs, m.i)
    ensures AnsweredAt(Front(fs), m.i, m.j) ==> AnsweredAt(fs, m.i, m.j)
    ensures CompletedAt(Front(fs), m.i, m.j, m.k) ==> CompletedAt(fs, m.i, m.j, m.k)
  {
    forall x | 0 <= x < |fs| - 1
      ensures Begins(fs, x) <==> Begins(Front(fs), x)
    {
      BeginsSame(fs, x);
    }
  }

  lemma OpenNext(fs: seq<Flags>, c: Conn, m: Marks) returns (m': Marks)
    requires |fs| > 1 && Stage(Front(fs), c.tcp, m) && !Last(fs).rst
    requires c.tcp == SynSent || c.tcp == SynReceived || c.tcp == Established
    requires c.tcp == SynSent <==> Dormant(Front(fs))
    ensures Stage(fs, Transition(c, Last(fs)).tcp, m')
  {
    forall x | 0 <= x < |fs| - 1
      ensures !Begins(fs, x)
    {
      BeginsSame(fs, x);
    }
    assert fs[..|fs| - 1] == Front(fs);
    m' := Marks(|fs| - 1, 0, 0);
  }

  lemma ClosingNext(fs: seq<Flags>, c: Conn, m: Marks) returns (m': Marks)
    requires |fs| > 1 && Stage(Front(fs), c.tcp, m) && !Last(fs).rst
    requires c.tcp == FinWait1 || c.tcp == FinWait2 || c.tcp == Closing
    ensures Stage(fs, Transition(c, Last(fs)).tcp, m')
  {
    MarksStay(fs, m);
    var last := |fs| - 1;
    assert forall x :: 0 <= x < last ==> fs[x] == Front(fs)[x];
    m' := if c.tcp == FinWait1 then m.(j := last) else m.(k := last);
  }

  lemma FinalNext(fs: seq<Flags>, c: Conn, m: Marks)
    requires |fs| > 1 && Stage(Front(fs), c.tcp, m) && !Last(fs).rst && (c.tcp == TimeWait || c.tcp == Closed)
    ensures Stage(fs, Transition(c, Last(fs)).tcp, m)
  {
    MarksStay(fs, m);
    assert fs == Front(fs) + [Last(fs)];
    if c.tcp == Closed {
      var l :| 0 <= l && m.k < l < |fs| - 1 && PureAck(Front(fs)[l]);
      assert PureAck(fs[l]);
    } else if PureAck(Last(fs)) {
      assert PureAck(fs[|fs| - 1]);
    } else {
      assert forall l :: 0 <= l && m.k < l < |fs| - 1 ==> fs[l] == Front(fs)[l];
    }
  }

  lemma {:induction false} Trace(fs: seq<Flags>) returns (m: Marks)
    requires fs != [] && !HasRst(fs)
    ensures Stage(fs, Along(fs, |fs|).tcp, m)
    decreases |fs|
  {
    assert !Last(fs).rst && !fs[0].rst;
    if |fs| == 1 {
      assert fs[..0] == [] && Front(fs) == [] && !Confirmed([]);
      m := Marks(0, 0, 0);
    } else {
      assert forall r :: 0 <= r < |fs| - 1 ==> Front(fs)[r] == fs[r];
      var m0 := Trace(Front(fs));
      AlongFront(fs, |fs| - 1);
      DormantIsSynSent(Front(fs));
      var c := Along(Front(fs), |fs| - 1);
      if c.tcp == TimeWait || c.tcp == Closed {
        FinalNext(fs, c, m0);
        m := m0;
      } else if c.tcp == FinWait1 || c.tcp == FinWait2 || c.tcp == Closing {
        m := ClosingNext(fs, c, m0);
      } else {
        m := OpenNext(fs, c, m0);
      }
    }
  }

  lemma OrderlyIsClosed(fs: seq<Flags>, t: Tcp, m: Marks, i: int, j: int, k: int)
    requires Stage(fs, t, m) && CompletedAt(fs, i, j, k) && AckedAfter(fs, k)
    ensures t == Closed
  {
    if t != SynSent && t != SynReceived && t != Established {
      assert BeginsAt(fs, m.i) && m.i == i;
    }
  }

  /** Exactly which flows are closed: those that saw a RST, in whatever state, and those that went through
      an orderly close: a first packet that begins it, one that answers, one that completes, and an ACK. */
  lemma ClosedExactly(fs: seq<Flags>)
    requires fs != []
    ensures Along(fs, |fs|).tcp == Closed <==> HasRst(fs) || ClosesInOrder(fs)
    ensures HasRst(fs) ==> Along(fs, |fs|) == Conn(Closed, false)
  {
    if r :| 0 <= r < |fs| && fs[r].rst {
      RstIsFinal(fs, r, |fs|);
    } else {
      var m := Trace(fs);
      if i, j, k :| CompletedAt(fs, i, j, k) && AckedAfter(fs, k) {
        OrderlyIsClosed(fs, Along(fs, |fs|).tcp, m, i, j, k);
      }
    }
  }

  lemma {:induction false} NoCloseWait(fs: seq<Flags>, k: nat)
    requires 1 <= k <= |fs|
    ensures Along(fs, k).tcp != CloseWait
    decreases k
  {
    if k > 1 {
      NoCloseWait(fs, k - 1);
    }
  }

  /** Exactly when a flow is reported established: from its confirmation, or from a pure ACK that opened it,
      until it is closed, through every state in between. */
  lemma {:induction false} FlagExactly(fs: seq<Flags>)
    requires fs != []
    ensures Along(fs, |fs|).established <==>
              Along(fs, |fs|).tcp != Closed && (Confirmed(fs) || (PureAck(fs[0]) && !fs[0].rst))
    decreases |fs|
  {
    if |fs| == 1 {
      assert !Confirmed(Front(fs));
    } else {
      FlagExactly(Front(fs));
      AlongFront(fs, |fs| - 1);
      DormantIsSynSent(Front(fs));
      NoCloseWait(Front(fs), |fs| - 1);
    }
  }

  /** A flow opened by a bare SYN never reaches ESTABLISHED and never reports established, although
      the demo documentation describes SYN_RECEIVED leading to ESTABLISHED. */
  lemma {:induction false} BareSynNeverEstablishes(first: Flags, fs: seq<Flags>)
    requires first.syn && !first.ack && !first.fin && !first.rst
    ensures var c := After(Opening(first, true), fs); c.tcp != Established && c.tcp != SynSent && !c.established
    decreases |fs|
  {
    if fs != [] {
      BareSynNeverEstablishes(first, Front(fs));
    }
  }

  /** A flow opened by a pure ACK reports established while in SYN_RECEIVED, until a RST or the
      final ACK closes it. */
  lemma {:induction false} PureAckReportsEstablished(fs: seq<Flags>)
    ensures var c := After(Opening(Flags(false, true, false, false), true), fs);
            c.tcp != Established && c.tcp != SynSent && (c.established <==> c.tcp != Closed)
    decreases |fs|
  {
    if fs != [] {
      PureAckReportsEstablished(Front(fs));
    }
  }
}
