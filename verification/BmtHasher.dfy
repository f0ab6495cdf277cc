/** The caller's side of the hasher as an object: Reset, Write and the prelude of Hash update it in place. */
module BmtHasher {
  import opened Common
  import opened BmtTree
  import opened BmtProtocol
  import opened BmtInvariant
  import opened BmtReuse

  class Hasher {
    const conf: Conf
    const buffer: array<bv8>
    var size: nat
    var pos: nat
    var offset: nat
    var span: Bytes
    var threads: seq<Thread>              // one entry per section; spawning makes it Ready
    ghost var main: Main                  // where the calling goroutine stands
    ghost var nodes: map<Node, NodeState> // the shared tree, untouched by this side
    ghost var stale: seq<Stale>           // goroutines of earlier chunks

    ghost function View(): State
      reads this, buffer
    {
      State(main, buffer[..], size, pos, offset, threads, nodes)
    }

    /**
     * Reset forgets the last chunk and leaves buffer and tree as they are. Goroutines of that chunk are not stopped,
     * they only no longer belong to the current one. Whatever chunk comes next starts from here; after Hash has
     * returned this is the step to the next chunk of a pooled tree.
     */
    method Reset(ghost job: Job)
      requires conf.Valid() && job.conf == conf && buffer.Length == conf.MaxSize() && TreeShape(conf, nodes)
      modifies this
      ensures span == Zeros(8) && nodes == old(nodes) && buffer[..] == old(buffer[..])
      ensures stale == old(stale) + Leftovers(job, old(View()))
      ensures forall next: Job :: next.conf == conf ==> Start(next, View())
      ensures old(main).Returned? ==>
                forall p: Pooled, next: Job ::
                  p.hist != [] && Now(p) == old(View()) && p.job == job && p.stale == old(stale)
                  && next.conf == conf && PaddingFits(next) ==>
                    NextChunk(p, Pooled(p.chunk + 1, next, [View()], stale))
    {
      stale := stale + Leftovers(job, View());
      pos := 0;
      size := 0;
      offset := 0;
      span := Zeros(8);
      threads := seq(conf.Sections(), _ => Idle);
      main := Writing(0);
    }

    /** copy(buffer[at:], b[:n]) */
    method CopyIn(at: nat, b: Bytes, n: nat)
      requires n <= |b| && at + n <= buffer.Length
      modifies buffer
      ensures buffer[..] == old(buffer[..at]) + b[..n] + old(buffer[at + n..])
    {
      ghost var was := buffer[..];
      var i := 0;
      NothingCopied(was, at, b);
      while i < n
        invariant 0 <= i <= n
        invariant buffer[..] == Copied(was, at, b, i)
      {
        CopiedNext(was, at, b, i);
        buffer[at + i] := b[i];
        assert buffer[..] == Copied(was, at, b, i)[at + i := b[i]];
        i := i + 1;
      }
    }

    /** go processSection(i, false) for from <= i < to */
    method Spawn(from: nat, to: int)
      requires to <= |threads|
      modifies this`threads
      ensures threads == MakeReady(old(threads), from, to)
    {
      var i := from;
      while i < to
        invariant from <= i && (i <= to || i == from)
        invariant |threads| == |old(threads)|
        invariant forall t :: 0 <= t < |threads| ==>
                    threads[t] == if from <= t < i && t < to then Ready else old(threads)[t]
      {
        threads := threads[i := Ready];
        i := i + 1;
      }
    }

    /** Write: copies in place, then spawns the sections that became full. */
    method Write(b: Bytes) returns (l: nat)
      requires Shape(conf, View())
      modifies this, buffer
      ensures View() == BmtProtocol.Write(conf, old(View()), b)
      ensures l == size - old(size) == Accepted(conf, old(size), b)
      ensures span == old(span) && stale == old(stale)
    {
      assert conf.Valid() && size <= conf.MaxSize() && |threads| == conf.Sections() && buffer.Length == conf.MaxSize();
      hide Shape, Quotient, MakeReady;
      l := |b|;
      var max := conf.MaxSize() - size;
      if l > max { l := max; }
      CopyIn(size, b, l);
      var secsize := conf.SecSize();
      var from := Quotient(size, secsize);
      offset := size % secsize;
      size := size + l;
      var to: int := Quotient(size, secsize);
      if l == max {
        QuotientOfProduct(conf.Sections(), secsize);
        to := to - 1;
      }
      pos := to;
      WithinSections(conf, size, l == max, to);
      Spawn(from, to);
    }

    /** Hash: the result at once for an empty chunk, otherwise up to the point where it waits for the result. */
    method StartHash(job: Job) returns (result: Option<Bytes>)
      requires job.conf == conf && job.span == span && Shape(conf, View()) && main == Writing(|job.pieces|)
      modifies this`threads, this`main, buffer
      ensures View() == MainStep(job, old(View()))
      ensures result.Some? <==> size == 0
      ensures result.Some? ==> main == Returned(result.value)
    {
      if size == 0 {
        result := Some(conf.sha3(span + conf.zerohashes[conf.depth]));
        main := Returned(result.value);
        return;
      }
      ghost var before := View();
      var k := Min(ZERO_SECTION, buffer.Length - size);
      CopyIn(size, Zeros(k), k);
      assert Zeros(k)[..k] == Zeros(k);
      threads := threads[pos := Ready];
      main := Waiting;
      result := None;
    }
  }

  ghost function Copied(buf: Bytes, at: nat, b: Bytes, n: nat): (r: Bytes)
    requires n <= |b| && at + n <= |buf|
    ensures |r| == |buf|
  {
    buf[..at] + b[..n] + buf[at + n..]
  }

  lemma NothingCopied(buf: Bytes, at: nat, b: Bytes)
    requires at <= |buf|
    ensures Copied(buf, at, b, 0) == buf
  {}

  lemma CopiedNext(buf: Bytes, at: nat, b: Bytes, i: nat)
    requires i < |b| && at + i < |buf|
    ensures Copied(buf, at, b, i + 1) == Copied(buf, at, b, i)[at + i := b[i]]
  {}

  lemma WithinSections(conf: Conf, size: nat, full: bool, to: int)
    requires conf.Valid() && size <= conf.MaxSize()
    requires to == if full then Quotient(size, conf.SecSize()) - 1 else Quotient(size, conf.SecSize())
    ensures to <= conf.Sections()
  {
    QuotientBounds(size, conf.SecSize(), conf.Sections() + 1);
    assert (conf.Sections() + 1) * conf.SecSize() > conf.MaxSize();
  }
}
