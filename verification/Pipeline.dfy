/** `SourceDriver`: the decoder thread gets clouds from a free queue, fills them and puts them
    into a pending queue; the processing thread sends each to all destinations and recycles it.
    Clouds are shared objects, named here by their allocation number. */
module Pipeline {
  import opened Wrappers

  // The cloud in the processing thread's hand, and how many destinations have it already.
  datatype Job = Job(id: nat, sentTo: nat)

  datatype State<V> = State(
    made: nat,
    content: map<nat, V>,        // what each cloud object holds now
    free: seq<nat>, pending: seq<nat>,
    driver: Option<nat>, job: Option<Job>,
    waiting: bool,               // the processing thread is inside popWait
    puts: seq<V>,                // the contents put, in order
    received: seq<seq<V>>,       // per destination
    exiting: bool)

  datatype Action<V> =
    | Get(initial: V)            // getPointCloud; a new cloud holds some initial value
    | Fill(v: V)                 // the decoder writes into the cloud in its hand
    | Put                        // putPointCloud
    | Wait                       // the loop's test of to_exit_process_ passes
    | Timeout                    // popWait gives nothing
    | Pop                        // popWait gives the oldest pending cloud
    | Send                       // the next destination gets the cloud
    | Recycle                    // back to the free queue
    | Exit                       // stop() sets to_exit_process_

  function Initial<V>(destinations: nat): (s: State<V>)
  {
    State(0, map[], [], [], None, None, false, [], seq(destinations, _ => []), false)
  }

  predicate Enabled<V>(s: State<V>, a: Action<V>)
  {
    match a
    case Get(_) => s.driver.None?
    case Fill(_) => s.driver.Some?
    case Put => s.driver.Some? && s.driver.value in s.content
    case Wait => s.job.None? && !s.waiting && !s.exiting
    case Timeout => s.waiting
    case Pop => s.waiting && s.job.None? && s.pending != []
    case Send => s.job.Some? && s.job.value.sentTo < |s.received| && s.job.value.id in s.content
    case Recycle => s.job.Some? && s.job.value.sentTo == |s.received|
    case Exit => true
  }

  function InUse<V>(s: State<V>): (n: nat)
  {
    |s.pending| + (if s.driver.Some? then 1 else 0) + if s.job.Some? then 1 else 0
  }

  function Do<V>(s: State<V>, a: Action<V>): (t: State<V>)
    requires Enabled(s, a)
  {
    match a
    case Get(v) =>
      if s.free != [] then s.(driver := Some(s.free[0]), free := s.free[1..])
      else s.(driver := Some(s.made), content := s.content[s.made := v], made := s.made + 1)
    case Fill(v) => s.(content := s.content[s.driver.value := v])
    case Put =>
      s.(pending := s.pending + [s.driver.value], puts := s.puts + [s.content[s.driver.value]], driver := None)
    case Wait => s.(waiting := true)
    case Timeout => s.(waiting := false)
    case Pop => s.(job := Some(Job(s.pending[0], 0)), pending := s.pending[1..], waiting := false)
    case Send =>
      var j := s.job.value;
      s.(received := s.received[j.sentTo := s.received[j.sentTo] + [s.content[j.id]]],
         job := Some(Job(j.id, j.sentTo + 1)))
    case Recycle => s.(free := s.free + [s.job.value.id], job := None)
    case Exit => s.(exiting := true)
  }

  predicate Possible<V>(s: State<V>, actions: seq<Action<V>>)
    decreases |actions|
  {
    actions == [] || (Enabled(s, actions[0]) && Possible(Do(s, actions[0]), actions[1..]))
  }

  function Run<V>(s: State<V>, actions: seq<Action<V>>): (t: State<V>)
    requires Possible(s, actions)
    decreases |actions|
  {
    if actions == [] then s else Run(Do(s, actions[0]), actions[1..])
  }

  // ---------------------------------------------------------------- Invariant

  function Hand(o: Option<nat>): (r: seq<nat>)
  {
    if o.Some? then [o.value] else []
  }

  function JobHand(o: Option<Job>): (r: seq<nat>)
  {
    if o.Some? then [o.value.id] else []
  }

  function Count(ids: seq<nat>, id: nat): (n: nat)
  {
    multiset(ids)[id]
  }

  lemma Counts(ids: seq<nat>, x: nat, id: nat)
    ensures Count([], id) == 0 && Count([x], id) == if x == id then 1 else 0
    ensures Count(ids + [x], id) == Count(ids, id) + Count([x], id)
    ensures ids != [] ==> Count(ids, id) == Count([ids[0]], id) + Count(ids[1..], id)
    ensures id in ids <==> Count(ids, id) > 0
  {
    assert ids != [] ==> ids == [ids[0]] + ids[1..];
  }

  // How often a cloud is found in the free queue, a hand or the pending queue.
  function Places<V>(s: State<V>, id: nat): (n: nat)
  {
    Count(s.free, id) + Count(Hand(s.driver), id) + Count(s.pending, id) + Count(JobHand(s.job), id)
  }

  ghost predicate Owned<V>(s: State<V>)
  {
    forall id: nat :: Places(s, id) == if id < s.made then 1 else 0
  }

  function Contents<V>(content: map<nat, V>, ids: seq<nat>): (r: seq<V>)
    requires forall id :: id in ids ==> id in content
  {
    if ids == [] then [] else [content[ids[0]]] + Contents(content, ids[1..])
  }

  ghost predicate Wellformed<V>(s: State<V>)
  {
    && (forall id: nat :: id < s.made ==> id in s.content)
    && (forall id :: id in s.pending ==> id < s.made)
    && (s.job.Some? ==> s.job.value.id < s.made && s.job.value.sentTo <= |s.received|)
    && (s.driver.Some? ==> s.driver.value < s.made)
  }

  // What destination d has received, what the processing thread still owes it,
  // and what is pending, make up what has been put.
  ghost predicate Ordered<V>(s: State<V>)
  {
    Wellformed(s) &&
    forall d :: 0 <= d < |s.received| ==> s.received[d] + Owed(s, d) == s.puts
  }

  ghost function Owed<V>(s: State<V>, d: nat): (r: seq<V>)
    requires Wellformed(s)
  {
    (if s.job.Some? && s.job.value.sentTo <= d then [s.content[s.job.value.id]] else []) +
    Contents(s.content, s.pending)
  }

  ghost predicate Counted<V>(s: State<V>)
  {
    |s.free| + InUse(s) == s.made
  }

  lemma PlacesKept<V>(s: State<V>, a: Action<V>, id: nat)
    requires Enabled(s, a)
    ensures Places(Do(s, a), id) == Places(s, id) + if a.Get? && s.free == [] && id == s.made then 1 else 0
  {
    hide Count, InUse;
    match a
    case Get(_) => Counts(s.free, s.made, id);
    case Put => Counts(s.pending, s.driver.value, id);
    case Pop => Counts(s.pending, 0, id);
    case Recycle => Counts(s.free, s.job.value.id, id);
    case _ =>
  }

  lemma OwnedKept<V>(s: State<V>, a: Action<V>)
    requires Owned(s) && Enabled(s, a)
    ensures Owned(Do(s, a))
  {
    hide Places;
    forall id: nat
      ensures Places(Do(s, a), id) == if id < Do(s, a).made then 1 else 0
    {
      PlacesKept(s, a, id);
    }
  }

  // A cloud in a hand or in the free queue is not pending.
  lemma NotPending<V>(s: State<V>, id: nat)
    requires Owned(s)
    ensures s.driver == Some(id) || id in s.free || id >= s.made ==> id !in s.pending
    ensures s.driver == Some(id) ==> s.job.None? || s.job.value.id != id
    ensures id in s.free || id in s.pending || s.driver == Some(id) ==> id < s.made
  {
    hide Count;
    assert Places(s, id) == if id < s.made then 1 else 0;
    Counts(s.pending, id, id);
    Counts(s.free, id, id);
    if s.job.Some? {
      Counts([], s.job.value.id, id);
    }
  }

  lemma {:induction false} ContentsSnoc<V>(content: map<nat, V>, ids: seq<nat>, id: nat)
    requires id in content && forall x :: x in ids ==> x in content
    ensures Contents(content, ids + [id]) == Contents(content, ids) + [content[id]]
    decreases |ids|
  {
    if ids == [] {
      assert ids + [id] == [id] && [id][1..] == [];
    } else {
      assert (ids + [id])[1..] == ids[1..] + [id];
      ContentsSnoc(content, ids[1..], id);
    }
  }

  // Writing into another cloud does not touch the pending ones.
  lemma {:induction false} ContentsKept<V>(content: map<nat, V>, ids: seq<nat>, id: nat, v: V)
    requires id !in ids && forall x :: x in ids ==> x in content
    ensures Contents(content[id := v], ids) == Contents(content, ids)
    decreases |ids|
  {
    if ids != [] {
      ContentsKept(content, ids[1..], id, v);
    }
  }

  // What a destination is owed stays the same while no cloud is put or sent.
  lemma OwedKept<V>(s: State<V>, a: Action<V>, d: nat)
    requires Owned(s) && Ordered(s) && Enabled(s, a) && d < |s.received|
    requires !a.Put? && !a.Send?
    ensures Wellformed(Do(s, a)) && Owed(Do(s, a), d) == Owed(s, d)
  {
    hide Owned, InUse;
    match a
    case Get(v) =>
      if s.free == [] {
        NotPending(s, s.made);
        ContentsKept(s.content, s.pending, s.made, v);
      } else {
        NotPending(s, s.free[0]);
      }
    case Fill(v) =>
      NotPending(s, s.driver.value);
      ContentsKept(s.content, s.pending, s.driver.value, v);
    case Pop =>
      StaysWellformed(s, a);
    case _ =>
  }

  lemma PutOrdered<V>(s: State<V>, d: nat)
    requires Ordered(s) && Enabled(s, Put) && d < |s.received|
    ensures Wellformed(Do(s, Put)) && Owed(Do(s, Put), d) == Owed(s, d) + [s.content[s.driver.value]]
  {
    hide InUse;
    ContentsSnoc(s.content, s.pending, s.driver.value);
  }

  lemma SendOrdered<V>(s: State<V>, d: nat)
    requires Ordered(s) && Enabled(s, Send) && d < |s.received|
    ensures Wellformed(Do(s, Send))
    ensures Do(s, Send).received[d] + Owed(Do(s, Send), d) == s.received[d] + Owed(s, d)
  {
    hide InUse, Contents;
  }

  lemma OrderedKept<V>(s: State<V>, a: Action<V>)
    requires Owned(s) && Ordered(s) && Enabled(s, a)
    ensures Ordered(Do(s, a))
  {
    hide Owned, Owed, Contents, InUse, Wellformed;
    var t := Do(s, a);
    StaysWellformed(s, a);
    forall d | 0 <= d < |t.received|
      ensures t.received[d] + Owed(t, d) == t.puts
    {
      if a.Put? {
        PutOrdered(s, d);
        assert s.received[d] + (Owed(s, d) + [s.content[s.driver.value]])
            == s.received[d] + Owed(s, d) + [s.content[s.driver.value]];
      } else if a.Send? {
        SendOrdered(s, d);
      } else {
        OwedKept(s, a, d);
      }
    }
  }

  lemma StaysWellformed<V>(s: State<V>, a: Action<V>)
    requires Owned(s) && Wellformed(s) && Enabled(s, a)
    ensures Wellformed(Do(s, a))
  {
    hide Owned, InUse;
    if s.free != [] {
      NotPending(s, s.free[0]);
    }
    if s.pending != [] {
      assert s.pending[0] in s.pending;
      assert forall id :: id in s.pending[1..] ==> id in s.pending;
    }
  }

  lemma {:induction false} InvariantHolds<V>(s: State<V>, actions: seq<Action<V>>)
    requires Owned(s) && Ordered(s) && Counted(s) && Possible(s, actions)
    ensures var t := Run(s, actions); Owned(t) && Ordered(t) && Counted(t) && |t.received| == |s.received|
    decreases |actions|
  {
    hide Owned, Ordered, Do, Enabled, Counted;
    if actions != [] {
      OwnedKept(s, actions[0]);
      OrderedKept(s, actions[0]);
      CountedKept(s, actions[0]);
      InvariantHolds(Do(s, actions[0]), actions[1..]);
    }
  }

  lemma CountedKept<V>(s: State<V>, a: Action<V>)
    requires Counted(s) && Enabled(s, a)
    ensures Counted(Do(s, a)) && |Do(s, a).received| == |s.received|
  {
  }

  lemma InitialInvariant<V>(destinations: nat)
    ensures var s := Initial<V>(destinations); Owned(s) && Ordered(s) && Counted(s)
  {
    forall id: nat
      ensures Places(Initial<V>(destinations), id) == 0
    {
    }
  }

  // ------------------------------------------------------------------ Results

  /** In every interleaving of decoder and processing threads, each cloud made so far is in
      exactly one of free queue, decoder's hand, pending queue and processor's hand. */
  lemma ExactlyOneOwner<V>(destinations: nat, actions: seq<Action<V>>, id: nat)
    requires Possible(Initial(destinations), actions)
    ensures var t := Run(Initial(destinations), actions);
            Places(t, id) == if id < t.made then 1 else 0
  {
    hide Places, Possible, Run, Initial;
    InitialInvariant<V>(destinations);
    InvariantHolds(Initial(destinations), actions);
  }

  /** Each destination has received a prefix of the puts, with the contents of the moment of
      the put although the objects are reused; what is missing is exactly what the processor
      holds for it and what is pending. */
  lemma InOrderWithoutLoss<V>(destinations: nat, actions: seq<Action<V>>, d: nat)
    requires Possible(Initial(destinations), actions) && d < destinations
    ensures var t := Run(Initial(destinations), actions);
            && |t.received| == destinations
            && t.received[d] <= t.puts
            && (t.job.None? && t.pending == [] ==> t.received[d] == t.puts)
            && |t.puts| - |t.received[d]| <= |t.pending| + 1
  {
    InitialInvariant<V>(destinations);
    InvariantHolds(Initial(destinations), actions);
    var t := Run(Initial(destinations), actions);
    hide Run, Possible, Owned, Counted, Contents;
    assert t.received[d] + Owed(t, d) == t.puts;
    ContentsLength(t.content, t.pending);
  }

  lemma {:induction false} ContentsLength<V>(content: map<nat, V>, ids: seq<nat>)
    requires forall x :: x in ids ==> x in content
    ensures |Contents(content, ids)| == |ids|
    decreases |ids|
  {
    if ids != [] {
      ContentsLength(content, ids[1..]);
    }
  }

  // A step of the processing thread, or of stop().
  predicate Elsewhere<V>(a: Action<V>)
  {
    !a.Get? && !a.Fill? && !a.Put?
  }

  lemma {:induction false} HandKept<V>(s: State<V>, actions: seq<Action<V>>)
    requires s.driver.Some? && s.driver.value in s.content && Possible(s, actions)
    requires forall a :: a in actions ==> Elsewhere(a)
    ensures var t := Run(s, actions); t.driver == s.driver && t.content == s.content && t.puts == s.puts
    decreases |actions|
  {
    if actions != [] {
      assert actions[0] in actions;
      HandKept(Do(s, actions[0]), actions[1..]);
    }
  }

  /** What the decoder wrote last is what it puts, whatever the processing thread does meanwhile. */
  lemma PutsWhatWasFilled<V>(s: State<V>, v: V, actions: seq<Action<V>>)
    requires s.driver.Some? && Possible(Do(s, Fill(v)), actions)
    requires forall a :: a in actions ==> Elsewhere(a)
    ensures var t := Run(Do(s, Fill(v)), actions);
            && Enabled(t, Put)
            && Do(t, Put).puts == s.puts + [v] && Do(t, Put).pending == t.pending + [s.driver.value]
  {
    HandKept(Do(s, Fill(v)), actions);
    hide Run, Possible;
  }

  // The most clouds in use at the same time, over all states of a run.
  function HighWater<V>(s: State<V>, actions: seq<Action<V>>): (n: nat)
    requires Possible(s, actions)
    ensures n >= InUse(s)
    decreases |actions|
  {
    if actions == [] then InUse(s)
    else
      var later := HighWater(Do(s, actions[0]), actions[1..]);
      if later < InUse(s) then InUse(s) else later
  }

  lemma {:induction false} MadeFollowsUse<V>(s: State<V>, actions: seq<Action<V>>)
    requires Counted(s) && Possible(s, actions)
    ensures Run(s, actions).made == if HighWater(s, actions) < s.made then s.made else HighWater(s, actions)
    decreases |actions|
  {
    if actions != [] {
      var a := actions[0];
      CountedKept(s, a);
      MadeFollowsUse(Do(s, a), actions[1..]);
      MadeStep(s, a);
      hide Do, Enabled, InUse, Run;
    }
  }

  lemma MadeStep<V>(s: State<V>, a: Action<V>)
    requires Counted(s) && Enabled(s, a)
    ensures Do(s, a).made == s.made || Do(s, a).made == s.made + 1 == InUse(Do(s, a))
  {
  }

  /** Recycling is tight: the number of clouds ever made is the high-water mark of use. */
  lemma MadeIsHighWater<V>(destinations: nat, actions: seq<Action<V>>)
    requires Possible(Initial(destinations), actions)
    ensures Run(Initial(destinations), actions).made == HighWater(Initial(destinations), actions)
  {
    InitialInvariant<V>(destinations);
    MadeFollowsUse(Initial(destinations), actions);
  }

  // How many clouds the processing thread takes in a run.
  function Pops<V>(actions: seq<Action<V>>): (n: nat)
  {
    if actions == [] then 0 else (if actions[0].Pop? then 1 else 0) + Pops(actions[1..])
  }

  /** Shutting down: once `stop` has set the flag the thread takes at most one more cloud, and
      only when it was already waiting for it. */
  lemma {:induction false} StopTakesAtMostOne<V>(s: State<V>, actions: seq<Action<V>>)
    requires s.exiting && Possible(s, actions)
    ensures Pops(actions) <= (if s.waiting then 1 else 0)
    ensures Run(s, actions).exiting
    decreases |actions|
  {
    if actions != [] {
      StopTakesAtMostOne(Do(s, actions[0]), actions[1..]);
    }
  }

  // ------------------------------------------------------------------ Threads

  /** The driver object. The methods run in the decoder's thread (GetPointCloud, PutPointCloud)
      and in the processing thread (ProcessOnce, one turn of its loop without interference);
      each does what the steps above say. */
  class SourceDriver<V> {
    var free: seq<nat>
    var pending: seq<nat>
    var content: map<nat, V>
    var made: nat
    var driver: Option<nat>
    var job: Option<Job>
    var waiting: bool
    var received: seq<seq<V>>
    var exiting: bool
    ghost var puts: seq<V>

    constructor (destinations: nat)
      ensures View() == Initial(destinations)
    {
      free, pending, content, made := [], [], map[], 0;
      driver, job, waiting, exiting := None, None, false, false;
      received := seq(destinations, _ => []);
      puts := [];
    }

    ghost function View(): (s: State<V>)
      reads this
    {
      State(made, content, free, pending, driver, job, waiting, puts, received, exiting)
    }

    method GetPointCloud(initial: V) returns (id: nat)
      requires driver.None?
      modifies this
      ensures View() == Do(old(View()), Get(initial)) && driver == Some(id)
      ensures old(free) != [] ==>
                id == old(free)[0] && free == old(free)[1..] && content == old(content) && made == old(made)
      ensures old(free) == [] ==>
                id == old(made) && free == [] && content == old(content)[id := initial] && made == old(made) + 1
      ensures pending == old(pending) && job == old(job) && received == old(received)
    {
      if free != [] {
        id := free[0];
        free := free[1..];
      } else {
        id := made;
        content := content[made := initial];
        made := made + 1;
      }
      driver := Some(id);
    }

    method PutPointCloud(id: nat)
      requires driver == Some(id) && id in content
      modifies this
      ensures View() == Do(old(View()), Put)
      ensures pending == old(pending) + [id] && driver == None && puts == old(puts) + [content[id]]
      ensures free == old(free) && content == old(content) && made == old(made)
    {
      pending := pending + [id];
      puts := puts + [content[id]];
      driver := None;
    }

    // `sendPointCloud`: the cloud goes to every destination in turn.
    method SendPointCloud()
      requires job.Some? && job.value.sentTo == 0 && job.value.id in content
      modifies this`received, this`job
      ensures job == Some(Job(old(job.value.id), |received|)) && |received| == |old(received)|
      ensures forall d :: 0 <= d < |received| ==> received[d] == old(received[d]) + [content[old(job.value.id)]]
      ensures Possible(old(View()), Sends(|received|))
      ensures View() == Run(old(View()), Sends(|received|))
    {
      hide InUse;
      ghost var start := View();
      var id := job.value.id;
      RunNone(start);
      for d := 0 to |received|
        invariant |received| == |start.received|
        invariant job == Some(Job(id, d))
        invariant forall e :: 0 <= e < d ==> received[e] == start.received[e] + [content[id]]
        invariant forall e :: d <= e < |received| ==> received[e] == start.received[e]
        invariant Possible(start, Sends(d)) && View() == Run(start, Sends(d))
      {
        RunSnoc(start, Sends(d), Send);
        assert Sends<V>(d + 1) == Sends<V>(d) + [Send];
        received := received[d := received[d] + [content[id]]];
        job := Some(Job(id, d + 1));
      }
    }

    /** One turn of the processing loop: nothing if no cloud is pending or the thread is told to
        end; otherwise the oldest pending cloud reaches all destinations and is recycled. */
    method ProcessOnce()
      requires job.None? && !waiting && forall id :: id in pending ==> id in content
      modifies this
      ensures old(exiting) || old(pending) == [] ==> View() == old(View())
      ensures !old(exiting) && old(pending) != [] ==>
                && free == old(free) + [old(pending[0])]
                && pending == old(pending)[1..]
                && job.None? && |received| == |old(received)|
                && (forall d :: 0 <= d < |received| ==>
                     received[d] == old(received[d]) + [old(content[pending[0]])])
                && !waiting && made == old(made) && content == old(content) && driver == old(driver) && puts == old(puts)
      ensures !old(exiting) && old(pending) != [] ==>
                Possible(old(View()), Turn(|received|)) && View() == Run(old(View()), Turn(|received|))
    {
      if exiting || pending == [] {
        return;
      }
      ghost var start := View();
      job := Some(Job(pending[0], 0));
      pending := pending[1..];
      ghost var popped := View();
      assert popped == Do(Do(start, Wait), Pop);
      SendPointCloud();
      hide Run, Possible;
      TurnRuns(start, |received|);
      free := free + [job.value.id];
      job := None;
    }
  }

  function Sends<V>(n: nat): (r: seq<Action<V>>)
    ensures |r| == n
  {
    seq(n, _ => Send)
  }

  // A turn of the processing loop with n destinations.
  function Turn<V>(n: nat): (r: seq<Action<V>>)
  {
    [Wait] + ([Pop] + (Sends(n) + [Recycle]))
  }

  lemma RunCons<V>(s: State<V>, a: Action<V>, actions: seq<Action<V>>)
    requires Enabled(s, a) && Possible(Do(s, a), actions)
    ensures Possible(s, [a] + actions) && Run(s, [a] + actions) == Run(Do(s, a), actions)
  {
    hide Do, Enabled;
    assert ([a] + actions)[1..] == actions;
  }

  lemma TurnRuns<V>(s: State<V>, n: nat)
    requires Enabled(s, Wait) && Enabled(Do(s, Wait), Pop)
    requires Possible(Do(Do(s, Wait), Pop), Sends(n))
    requires Enabled(Run(Do(Do(s, Wait), Pop), Sends(n)), Recycle)
    ensures Possible(s, Turn(n))
    ensures Run(s, Turn(n)) == Do(Run(Do(Do(s, Wait), Pop), Sends(n)), Recycle)
  {
    hide Do, Enabled, Run, Possible;
    var s1 := Do(s, Wait);
    RunSnoc(Do(s1, Pop), Sends(n), Recycle);
    RunCons(s1, Pop, Sends(n) + [Recycle]);
    RunCons(s, Wait, [Pop] + (Sends(n) + [Recycle]));
  }

  lemma RunNone<V>(s: State<V>)
    ensures Sends<V>(0) == [] && Possible(s, Sends(0)) && Run(s, Sends(0)) == s
  {
  }

  lemma {:induction false} RunSnoc<V>(s: State<V>, actions: seq<Action<V>>, a: Action<V>)
    requires Possible(s, actions)
    ensures Enabled(Run(s, actions), a) ==>
              Possible(s, actions + [a]) && Run(s, actions + [a]) == Do(Run(s, actions), a)
    decreases |actions|
  {
    hide Do, Enabled;
    if actions == [] {
      assert actions + [a] == [a] && [a][1..] == [];
    } else {
      assert (actions + [a])[1..] == actions[1..] + [a];
      RunSnoc(Do(s, actions[0]), actions[1..], a);
    }
  }
}
