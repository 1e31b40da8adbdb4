/** Connection permits (src/proxy/proxy.rs, src/proxy/tls.rs) as a machine whose steps interleave freely. */
module Permits {

  /** A listener keeps the semaphore that was current when it was started. */
  datatype Listener = Listener(semaphore: nat, isTls: bool)

  datatype Phase = Handshaking | Serving

  /** A connection task owns one permit of its semaphore until it ends. */
  datatype Task = Task(semaphore: nat, phase: Phase)

  datatype Semaphore = Semaphore(limit: nat, free: nat)

  datatype State = State(semaphores: seq<Semaphore>, current: nat, listeners: seq<Listener>, tasks: map<nat, Task>)

  datatype Step =
    | StartListener(isTls: bool)
    | Connect(listener: nat, task: nat)
    | HandshakeDone(task: nat, ok: bool)
    | ConnectionEnds(task: nat)
    | SetMaxConcurrency(max: nat)

  function Initial(max: nat): State { State([Semaphore(max, max)], 0, [], map[]) }

  /** Steps name things that exist, and a new task has a new number. */
  predicate Enabled(st: State, step: Step) {
    match step
    case Connect(listener, task) => listener < |st.listeners| && task !in st.tasks
    case HandshakeDone(task, _) => task in st.tasks && st.tasks[task].phase.Handshaking?
    case ConnectionEnds(task) => task in st.tasks && st.tasks[task].phase.Serving?
    case _ => true
  }

  predicate Sound(st: State) {
    && st.current < |st.semaphores|
    && (forall l :: l in st.listeners ==> l.semaphore < |st.semaphores|)
    && (forall t :: t in st.tasks ==> st.tasks[t].semaphore < |st.semaphores|)
  }

  function Live(tasks: map<nat, Task>, semaphore: nat): set<nat> {
    set t | t in tasks && tasks[t].semaphore == semaphore
  }

  /** `try_acquire_owned` fails: the connection is dropped. */
  predicate Rejects(st: State, listener: nat)
    requires Sound(st) && listener < |st.listeners|
  {
    assert st.listeners[listener] in st.listeners;
    st.semaphores[st.listeners[listener].semaphore].free == 0
  }

  function Release(st: State, task: nat): State
    requires Sound(st) && task in st.tasks
  {
    var s := st.tasks[task].semaphore;
    st.(tasks := st.tasks - {task}, semaphores := st.semaphores[s := st.semaphores[s].(free := st.semaphores[s].free + 1)])
  }

  function Next(st: State, step: Step): State
    requires Sound(st) && Enabled(st, step)
  {
    match step
    case StartListener(isTls) => st.(listeners := st.listeners + [Listener(st.current, isTls)])
    case Connect(listener, task) =>
      if Rejects(st, listener) then st
      else
        var l := st.listeners[listener];
        assert l in st.listeners;
        var sem := st.semaphores[l.semaphore];
        st.(semaphores := st.semaphores[l.semaphore := sem.(free := sem.free - 1)],
            tasks := st.tasks[task := Task(l.semaphore, if l.isTls then Handshaking else Serving)])
    case HandshakeDone(task, ok) =>
      if ok then st.(tasks := st.tasks[task := st.tasks[task].(phase := Serving)]) else Release(st, task)
    case ConnectionEnds(task) => Release(st, task)
    case SetMaxConcurrency(max) => st.(semaphores := st.semaphores + [Semaphore(max, max)], current := |st.semaphores|)
  }

  /** Per semaphore, free permits and live connection tasks add up to the limit. */
  ghost predicate Conserved(st: State) {
    && Sound(st)
    && forall s :: 0 <= s < |st.semaphores| ==> st.semaphores[s].free + |Live(st.tasks, s)| == st.semaphores[s].limit
  }

  lemma {:induction false} LiveAfterAdd(tasks: map<nat, Task>, task: nat, t: Task, s: nat)
    requires task !in tasks
    ensures |Live(tasks[task := t], s)| == |Live(tasks, s)| + if t.semaphore == s then 1 else 0
  {
    var more := Live(tasks[task := t], s);
    if t.semaphore == s { assert more == Live(tasks, s) + {task}; } else { assert more == Live(tasks, s); }
  }

  lemma {:induction false} LiveAfterRemove(tasks: map<nat, Task>, task: nat, s: nat)
    requires task in tasks
    ensures |Live(tasks - {task}, s)| == |Live(tasks, s)| - if tasks[task].semaphore == s then 1 else 0
  {
    var fewer := Live(tasks - {task}, s);
    if tasks[task].semaphore == s { assert Live(tasks, s) == fewer + {task}; } else { assert fewer == Live(tasks, s); }
  }

  lemma {:induction false} ReleaseConserves(st: State, task: nat)
    requires Conserved(st) && task in st.tasks
    ensures Conserved(Release(st, task))
  {
    forall s | 0 <= s < |st.semaphores| { LiveAfterRemove(st.tasks, task, s); }
  }

  lemma {:induction false} ConnectConserves(st: State, listener: nat, task: nat)
    requires Conserved(st) && Enabled(st, Connect(listener, task)) && !Rejects(st, listener)
    ensures Conserved(Next(st, Connect(listener, task)))
  {
    var l := st.listeners[listener];
    var t := Task(l.semaphore, if l.isTls then Handshaking else Serving);
    forall s | 0 <= s < |st.semaphores| { LiveAfterAdd(st.tasks, task, t, s); }
  }

  lemma {:induction false} StepConserves(st: State, step: Step)
    requires Conserved(st) && Enabled(st, step)
    ensures Conserved(Next(st, step))
  {
    match step
    case StartListener(_) =>
    case Connect(listener, task) => if !Rejects(st, listener) { ConnectConserves(st, listener, task); }
    case HandshakeDone(task, ok) =>
      if ok {
        forall s | 0 <= s < |st.semaphores| ensures Live(Next(st, step).tasks, s) == Live(st.tasks, s) { }
      } else {
        ReleaseConserves(st, task);
      }
    case ConnectionEnds(task) => ReleaseConserves(st, task);
    case SetMaxConcurrency(max) =>
      assert Live(st.tasks, |st.semaphores|) == {};
  }

  /** `st'` comes out of `st` by the steps, each of them enabled when it is taken. */
  ghost predicate Reaches(st: State, steps: seq<Step>, st': State)
    decreases |steps|
  {
    if steps == [] then st' == st
    else Sound(st) && Enabled(st, steps[0]) && Reaches(Next(st, steps[0]), steps[1..], st')
  }

  /** In every interleaving permits are conserved per semaphore, no semaphore is ever over its limit, and a connection
      is rejected exactly when its listener's semaphore has as many live tasks as its limit. */
  lemma {:induction false} PermitsConserved(st: State, steps: seq<Step>, st': State)
    requires Conserved(st) && Reaches(st, steps, st')
    ensures Conserved(st')
    ensures forall s :: 0 <= s < |st'.semaphores| ==> |Live(st'.tasks, s)| <= st'.semaphores[s].limit
    ensures forall l :: 0 <= l < |st'.listeners| ==>
              var s := st'.listeners[l].semaphore;
              s < |st'.semaphores| && (Rejects(st', l) <==> |Live(st'.tasks, s)| == st'.semaphores[s].limit)
    decreases |steps|
  {
    if steps == [] {
      assert forall l :: 0 <= l < |st.listeners| ==> st.listeners[l] in st.listeners;
    } else {
      StepConserves(st, steps[0]);
      PermitsConserved(Next(st, steps[0]), steps[1..], st');
    }
  }

  lemma {:induction false} InitiallyConserved(max: nat)
    ensures Conserved(Initial(max))
  {
    assert Live(Initial(max).tasks, 0) == {};
  }

  /** What the steps do besides keeping the balance: a connection that is not rejected becomes a task that holds one of
      its listener's permits, in its handshake exactly on a TLS listener; a failed handshake and the end of a connection
      give the permit back; a successful handshake keeps it. */
  lemma {:induction false} StepsMovePermits(st: State, listener: nat, task: nat)
    requires Sound(st)
    ensures Enabled(st, Connect(listener, task)) ==>
              var st', s := Next(st, Connect(listener, task)), st.listeners[listener].semaphore;
              && s < |st.semaphores|
              && (task in st'.tasks <==> st.semaphores[s].free > 0)
              && (task in st'.tasks ==>
                    && st'.tasks == st.tasks[task := Task(s, if st.listeners[listener].isTls then Handshaking else Serving)]
                    && st'.semaphores[s].free == st.semaphores[s].free - 1)
    ensures forall step :: (step == HandshakeDone(task, false) || step == ConnectionEnds(task)) && Enabled(st, step) ==>
              var st', s := Next(st, step), st.tasks[task].semaphore;
              st'.tasks == st.tasks - {task} && st'.semaphores[s].free == st.semaphores[s].free + 1
    ensures Enabled(st, HandshakeDone(task, true)) ==>
              var st' := Next(st, HandshakeDone(task, true));
              st'.tasks == st.tasks[task := st.tasks[task].(phase := Serving)] && st'.semaphores == st.semaphores
  {
    if listener < |st.listeners| { assert st.listeners[listener] in st.listeners; }
  }

  /** A listener that is started after the limit was changed works with the new one: it has room for as many connections
      as the new limit says. */
  lemma {:induction false} NewListenerHasNewLimit(st: State, max: nat, isTls: bool)
    requires Conserved(st)
    ensures var st' := Next(Next(st, SetMaxConcurrency(max)), StartListener(isTls));
            var l := |st.listeners|;
            && Conserved(st') && l < |st'.listeners| && st'.listeners[l].isTls == isTls
            && var s := st'.listeners[l].semaphore;
               s < |st'.semaphores| && st'.semaphores[s] == Semaphore(max, max) && Live(st'.tasks, s) == {}
  {
    var st1 := Next(st, SetMaxConcurrency(max));
    StepConserves(st, SetMaxConcurrency(max));
    StepConserves(st1, StartListener(isTls));
    assert Live(st.tasks, |st.semaphores|) == {};
  }

  /** Changing the limit does not reach a running listener: it keeps its semaphore, with the old limit and count, so it
      accepts or rejects as if nothing had changed. */
  lemma {:induction false} NewLimitMissesListeners(st: State, max: nat, listener: nat)
    requires Sound(st) && listener < |st.listeners|
    ensures var st' := Next(st, SetMaxConcurrency(max));
            && Sound(st') && st'.listeners == st.listeners
            && (Rejects(st', listener) <==> Rejects(st, listener))
            && st.listeners[listener].semaphore != st'.current
  {
    assert st.listeners[listener] in st.listeners;
  }
}
