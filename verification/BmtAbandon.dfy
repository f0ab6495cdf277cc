/** A chunk given up before Hash: the tree is not at rest, and the next chunk may get a wrong hash. */
module BmtAbandon {
  import opened Common
  import opened BmtTree
  import opened BmtProtocol
  import opened BmtTheorems

  /** Two sections of two bytes; hashing only joins, so that a hash shows what went into it. */
  function Tiny(): Conf { Conf(x => x, x => x, 1, 2, [[0], [0, 0], [0, 0, 0, 0]]) }

  /** A chunk of three bytes b in one piece. */
  function Three(b: bv8): Job { Job(Tiny(), [], [[b, b, b]]) }

  function Tree(left: Bytes, state: int): map<Node, NodeState> {
    map[Node(0, 0) := NodeState([], [], 0), Node(0, 1) := NodeState([], [], 0),
        Node(1, 0) := NodeState(left, [], state)]
  }

  /** The hasher as the next chunk finds it. */
  function Before(buffer: Bytes, left: Bytes, state: int): State {
    State(Writing(0), buffer, 0, 0, 0, [Idle, Idle], Tree(left, state))
  }

  /** After the Write, with the goroutine of the full section at th. */
  function Written(b: bv8, rest: Bytes, th: Thread, left: Bytes, state: int): State {
    State(Writing(1), [b, b, b] + rest, 3, 1, 0, [th, Idle], Tree(left, state))
  }

  /** After the call of Hash, before the final goroutine has moved. */
  function Hashing(b: bv8, main: Main, th: Thread, left: Bytes, state: int): State {
    State(main, [b, b, b, 0], 3, 1, 0, [th, Ready], Tree(left, state))
  }

  lemma TinyFacts()
    ensures Tiny().Valid() && Tiny().Sections() == 2 && Tiny().MaxSize() == 4
    ensures On(0, 0) == Node(0, 0) && On(0, 1) == Node(1, 0) && IsLeft(On(0, 0))
  {
    var c := Tiny();
    assert Zeros(1) == [0] && c.zerohashes[0] == [0];
    assert c.zerohashes[1] == [0] + [0] && c.zerohashes[2] == [0, 0] + [0, 0];
    assert Pow2(1) == 2 && Pow2(0) == 1;
  }

  lemma TreeIsThere(left: Bytes, state: int)
    ensures TreeShape(Tiny(), Tree(left, state))
  {
    assert Pow2(1) == 2 && Pow2(0) == 1;
    forall l: nat, k: nat | l < 2 && k < Pow2(2 - 1 - l) ensures Node(l, k) in Tree(left, state) {
      if l == 0 { assert k == 0 || k == 1; } else { assert l == 1 && k == 0; }
    }
  }

  lemma ShapeOf(st: State, left: Bytes, state: int)
    requires st.nodes == Tree(left, state) && |st.buffer| == 4 && st.size <= 4 && |st.threads| == 2 && st.pos < 2
    requires forall t :: 0 <= t < 2 ==> ThreadShape(Tiny(), st, t, st.threads[t])
    ensures Shape(Tiny(), st)
  {
    TinyFacts();
    TreeIsThere(left, state);
    hide Tree, ThreadShape, Tiny;
  }

  /** The Write starts the goroutine of the first section. */
  lemma WriteStep(b: bv8, buffer: Bytes, left: Bytes, state: int)
    requires |buffer| == 4
    ensures Next(Three(b), Before(buffer, left, state), Written(b, buffer[3..], Ready, left, state))
  {
    var st, job := Before(buffer, left, state), Three(b);
    TinyFacts();
    ShapeOf(st, left, state);
    assert Quotient(0, 2) == 0 && Quotient(3, 2) == 1;
    hide Shape, Tree;
    var st' := MainStep(job, st);
    assert [b, b, b][..3] == [b, b, b] && buffer[..0] == [];
    assert st'.buffer == [b, b, b] + buffer[3..];
    assert st'.threads == [Ready, Idle];
  }

  /** Hash pads and starts the final goroutine. */
  lemma HashStep(b: bv8, rest: Bytes, th: Thread, left: Bytes, state: int)
    requires |rest| == 1 && ThreadShape(Tiny(), Written(b, rest, th, left, state), 0, th)
    ensures Next(Three(b), Written(b, rest, th, left, state), Hashing(b, Waiting, th, left, state))
  {
    var st, job := Written(b, rest, th, left, state), Three(b);
    TinyFacts();
    ShapeOf(st, left, state);
    hide Shape, Tree;
    var st' := MainStep(job, st);
    assert Zeros(1) == [0] && st.buffer[..3] == [b, b, b] && st.buffer[4..] == [];
    assert st'.buffer == [b, b, b, 0];
  }

  /** A state in which the first goroutine may move. */
  ghost predicate Running(b: bv8, st: State, left: Bytes, state: int) {
    && st.nodes == Tree(left, state) && |st.buffer| == 4 && st.size <= 4 && |st.threads| == 2 && st.pos == 1
    && st.buffer[..2] == [b, b] && (st.threads[1] == Idle || st.threads[1] == Ready)
    && ThreadShape(Tiny(), st, 0, st.threads[0])
  }

  /** What the first goroutine does next, before or after the call of Hash: hash its section or send the result. */
  lemma HashMoves(b: bv8, st: State, left: Bytes, state: int)
    requires Running(b, st, left, state)
    ensures st.threads[0] == Ready ==>
              Next(Three(b), st, st.(threads := [Arrive(1, Some([b, b])), st.threads[1]]))
    ensures st.threads[0] == Arrive(2, Some(left)) && st.main.Waiting? ==>
              Next(Three(b), st, st.(threads := [Stopped(2), st.threads[1]], main := Returned(left)))
  {
    TinyFacts();
    ShapeOf(st, left, state);
    assert Section(Tiny(), st.buffer, 0) == [b, b];
    hide Shape, ThreadShape, Tree;
    assert [] + left == left;
    if st.threads[0] == Ready || (st.threads[0] == Arrive(2, Some(left)) && st.main.Waiting?) {
      var st' := ThreadStep(Three(b), st, 0);
      assert ThreadCanStep(Three(b), st, 0) && Next(Three(b), st, st');
      assert st'.threads == [st'.threads[0], st.threads[1]];
    }
  }

  /** Write its slot and toggle. */
  lemma NodeMoves(b: bv8, st: State, left: Bytes, state: int)
    requires Running(b, st, left, state)
    ensures st.threads[0] == Arrive(1, Some([b, b])) ==>
              Next(Three(b), st, st.(threads := [Flip(1), st.threads[1]], nodes := Tree([b, b], state)))
    ensures st.threads[0] == Flip(1) ==>
              Next(Three(b), st, st.(threads := [if ToggleFirst(state) then Stopped(1) else Combine(1), st.threads[1]],
                                     nodes := Tree(left, ToggleState(state))))
  {
    TinyFacts();
    ShapeOf(st, left, state);
    hide Shape, ThreadShape, ToggleFirst, ToggleState;
    if st.threads[0] == Arrive(1, Some([b, b])) || st.threads[0] == Flip(1) {
      var st' := ThreadStep(Three(b), st, 0);
      assert ThreadCanStep(Three(b), st, 0) && Next(Three(b), st, st');
      assert st'.threads == [st'.threads[0], st.threads[1]];
    }
  }

  /** Hash both slots of the root. */
  lemma CombineMove(b: bv8, st: State, left: Bytes, state: int)
    requires Running(b, st, left, state) && st.threads[0] == Combine(1)
    ensures Next(Three(b), st, st.(threads := [Arrive(2, Some(left)), st.threads[1]]))
  {
    TinyFacts();
    ShapeOf(st, left, state);
    hide Shape, ThreadShape;
    assert left + [] == left;
    var st' := ThreadStep(Three(b), st, 0);
    assert ThreadCanStep(Three(b), st, 0) && Next(Three(b), st, st');
    assert st'.threads == [st'.threads[0], st.threads[1]];
  }

  lemma FirstSteps(b: bv8, rest: Bytes, left: Bytes, state: int)
    requires |rest| == 1
    ensures Next(Three(b), Written(b, rest, Ready, left, state), Written(b, rest, Arrive(1, Some([b, b])), left, state))
    ensures Next(Three(b), Written(b, rest, Arrive(1, Some([b, b])), left, state),
                 Written(b, rest, Flip(1), [b, b], state))
    ensures ToggleFirst(state) ==>
              Next(Three(b), Written(b, rest, Flip(1), left, state),
                   Written(b, rest, Stopped(1), left, ToggleState(state)))
  {
    hide Next, Tree, ToggleFirst, ToggleState, Three, Tiny;
    assert ([b, b, b] + rest)[..2] == [b, b];
    Depth();
    HashMoves(b, Written(b, rest, Ready, left, state), left, state);
    NodeMoves(b, Written(b, rest, Arrive(1, Some([b, b])), left, state), left, state);
    NodeMoves(b, Written(b, rest, Flip(1), left, state), left, state);
  }

  lemma Depth()
    ensures Tiny().depth == 2
  {}

  lemma LastSteps(b: bv8, left: Bytes, state: int)
    ensures Next(Three(b), Hashing(b, Waiting, Ready, left, state),
                 Hashing(b, Waiting, Arrive(1, Some([b, b])), left, state))
    ensures Next(Three(b), Hashing(b, Waiting, Arrive(1, Some([b, b])), left, state),
                 Hashing(b, Waiting, Flip(1), [b, b], state))
    ensures !ToggleFirst(state) ==>
              Next(Three(b), Hashing(b, Waiting, Flip(1), left, state),
                   Hashing(b, Waiting, Combine(1), left, ToggleState(state)))
    ensures Next(Three(b), Hashing(b, Waiting, Combine(1), left, state),
                 Hashing(b, Waiting, Arrive(2, Some(left)), left, state))
    ensures Next(Three(b), Hashing(b, Waiting, Arrive(2, Some(left)), left, state),
                 Hashing(b, Returned(left), Stopped(2), left, state))
  {
    hide Next, Tree, ToggleFirst, ToggleState, Three, Tiny;
    assert [b, b, b, 0][..2] == [b, b];
    Depth();
    HashMoves(b, Hashing(b, Waiting, Ready, left, state), left, state);
    NodeMoves(b, Hashing(b, Waiting, Arrive(1, Some([b, b])), left, state), left, state);
    NodeMoves(b, Hashing(b, Waiting, Flip(1), left, state), left, state);
    CombineMove(b, Hashing(b, Waiting, Combine(1), left, state), left, state);
    HashMoves(b, Hashing(b, Waiting, Arrive(2, Some(left)), left, state), left, state);
  }

  lemma StartOf(b: bv8, buffer: Bytes, left: Bytes, state: int)
    requires |buffer| == 4
    ensures Start(Three(b), Before(buffer, left, state))
    ensures state == 0 ==> TreeReady(Three(b).conf, Before(buffer, left, state).nodes)
  {
    TinyFacts();
    TreeIsThere(left, state);
  }

  lemma ExpectedOf(b: bv8)
    ensures Tiny().Valid() && |Expected(Three(b))| == 4
  {
    TinyFacts();
  }

  /**
  A chunk is written and given up: its one goroutine has ended, with the counter of the root at one. The next chunk
  uses the same hasher after Reset. Its first goroutine takes itself for the second at the root and sends a hash
  without the data of the last section, before the final goroutine has moved.
  */
  lemma AbandonedChunk() returns (first: seq<State>, second: seq<State>)
    ensures Run(Three(1), first) && !first[|first| - 1].main.Returned?
    ensures var last := first[|first| - 1];
      forall t :: 0 <= t < |last.threads| ==> Gone(Tiny(), last.pos, t, last.threads[t])
    ensures Steps(Three(2), second) && second[0].nodes == first[|first| - 1].nodes
    ensures second[0].buffer == first[|first| - 1].buffer
    ensures Tiny().Valid()
    ensures var end := second[|second| - 1].main; end.Returned? && end.out != Expected(Three(2))
  {
    hide Next, Expected, Steps, Run, Three, Tiny, Tree, ToggleFirst, ToggleState;
    Toggles();
    var zeros: Bytes := [0, 0, 0, 0];
    first := [Before(zeros, [], 0), Written(1, [0], Ready, [], 0), Written(1, [0], Arrive(1, Some([1, 1])), [], 0),
              Written(1, [0], Flip(1), [1, 1], 0), Written(1, [0], Stopped(1), [1, 1], 1)];
    var next := ToggleState(1);
    second := [Before([1, 1, 1, 0], [1, 1], 1), Written(2, [0], Ready, [1, 1], 1),
               Hashing(2, Waiting, Ready, [1, 1], 1), Hashing(2, Waiting, Arrive(1, Some([2, 2])), [1, 1], 1),
               Hashing(2, Waiting, Flip(1), [2, 2], 1), Hashing(2, Waiting, Combine(1), [2, 2], next),
               Hashing(2, Waiting, Arrive(2, Some([2, 2])), [2, 2], next),
               Hashing(2, Returned([2, 2]), Stopped(2), [2, 2], next)];
    FirstRun(first);
    SecondRun(second);
    ExpectedOf(2);
    assert first[4].buffer == [1, 1, 1, 0];
  }

  lemma Toggles()
    ensures ToggleState(0) == 1 && ToggleFirst(0) && !ToggleFirst(1)
  {
    ToggleTellsFirst(0);
  }

  lemma FirstRun(run: seq<State>)
    requires run == [Before([0, 0, 0, 0], [], 0), Written(1, [0], Ready, [], 0),
                     Written(1, [0], Arrive(1, Some([1, 1])), [], 0), Written(1, [0], Flip(1), [1, 1], 0),
                     Written(1, [0], Stopped(1), [1, 1], 1)]
    requires ToggleFirst(0) && ToggleState(0) == 1
    ensures Run(Three(1), run)
  {
    hide Next, Start, TreeReady, Before, Written, Three, ToggleFirst, ToggleState;
    var zeros: Bytes := [0, 0, 0, 0];
    assert zeros[3..] == [0];
    WriteStep(1, zeros, [], 0);
    FirstSteps(1, [0], [], 0);
    FirstSteps(1, [0], [1, 1], 0);
    StartOf(1, zeros, [], 0);
  }

  lemma SecondRun(run: seq<State>)
    requires run == [Before([1, 1, 1, 0], [1, 1], 1), Written(2, [0], Ready, [1, 1], 1),
                     Hashing(2, Waiting, Ready, [1, 1], 1), Hashing(2, Waiting, Arrive(1, Some([2, 2])), [1, 1], 1),
                     Hashing(2, Waiting, Flip(1), [2, 2], 1), Hashing(2, Waiting, Combine(1), [2, 2], ToggleState(1)),
                     Hashing(2, Waiting, Arrive(2, Some([2, 2])), [2, 2], ToggleState(1)),
                     Hashing(2, Returned([2, 2]), Stopped(2), [2, 2], ToggleState(1))]
    requires !ToggleFirst(1)
    ensures Steps(Three(2), run)
  {
    hide Next, Start, Before, Written, Hashing, Three, ToggleFirst, ToggleState;
    var buffer: Bytes := [1, 1, 1, 0];
    assert buffer[3..] == [0];
    WriteStep(2, buffer, [1, 1], 1);
    HashStep(2, [0], Ready, [1, 1], 1);
    LastSteps(2, [1, 1], 1);
    LastSteps(2, [2, 2], 1);
    LastSteps(2, [2, 2], ToggleState(1));
    StartOf(2, buffer, [1, 1], 1);
  }
}
