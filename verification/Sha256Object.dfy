/** The program's buffered hash object, refined to `Sha256` for every way of splitting the message. */
module Sha256Object {
  import opened Sha256Spec

  /** `h` is the hash value of the whole blocks of `m`, and `tail` holds the bytes behind them. */
  ghost predicate Buffers(h: Hash, tail: seq<Byte>, m: seq<Byte>) {
    |tail| == |m| % 64 && h == Absorb(Initial(), m[..|m| - |tail|]) && tail == m[|m| - |tail|..]
  }

  lemma BuffersNothing()
    ensures Buffers(Initial(), [], [])
  {}

  lemma BuffersMore(h: Hash, tail: seq<Byte>, m: seq<Byte>, chunk: seq<Byte>)
    requires Buffers(h, tail, m) && |tail| + |chunk| < 64
    ensures Buffers(h, tail + chunk, m + chunk)
  {
    hide Absorb, Initial;
    var whole := |m| - |tail|;
    assert (m + chunk)[..whole] == m[..whole] && (m + chunk)[whole..] == tail + chunk;
  }

  lemma BuffersBlock(h: Hash, tail: seq<Byte>, m: seq<Byte>, chunk: seq<Byte>)
    requires Buffers(h, tail, m) && |tail| + |chunk| == 64
    ensures Buffers(Compressed(h, tail + chunk), [], m + chunk)
  {
    hide Absorb, Initial, Compressed;
    var whole, more := |m| - |tail|, m + chunk;
    assert more[..whole] == m[..whole] && more[whole..] == tail + chunk;
    assert more == m[..whole] + (tail + chunk) && more[..|more|] == more;
    AbsorbAppend(Initial(), m[..whole], tail + chunk);
    OneBlock(h, tail + chunk);
  }

  lemma BuffersAll(h: Hash, m: seq<Byte>)
    requires Buffers(h, [], m)
    ensures h == Absorb(Initial(), m)
  {
    assert m[..|m|] == m;
  }

  lemma OneBlock(h: Hash, block: Block)
    ensures Absorb(h, block) == Compressed(h, block)
  {
    hide Compressed;
    assert block[..64] == block && block[64..] == [];
    assert Absorb(Compressed(h, block), []) == Compressed(h, block);
  }

  class Sha256State {
    const state: array<Word>
    var bitCount: nat
    const buffer: array<Byte>
    var bufferLen: nat
    /** Everything absorbed since the last reset. */
    ghost var message: seq<Byte>

    ghost predicate Buffered()
      reads this, state, buffer
    {
      && state.Length == 8 && buffer.Length == 64 && bufferLen < 64
      && Buffers(state[..], buffer[..bufferLen], message)
    }

    ghost predicate Valid()
      reads this, state, buffer
    {
      Buffered() && bitCount == 8 * |message| % TWO64
    }

    /** Field by field what the constructor leaves. */
    ghost predicate Fresh()
      reads this, state, buffer
    {
      && Valid() && message == [] && bitCount == 0 && bufferLen == 0
      && state[..] == Initial() && buffer[..] == Zeros(64)
    }

    constructor ()
      ensures Fresh() && fresh(state) && fresh(buffer)
    {
      hide Initial, Absorb, Buffers;
      state := new Word[8](i requires 0 <= i < 8 => Initial()[i]);
      buffer := new Byte[64](i => 0);
      bitCount := 0;
      bufferLen := 0;
      message := [];
      new;
      assert state[..] == Initial();
      assert buffer[..] == Zeros(64);
      assert buffer[..0] == [];
      BuffersNothing();
    }

    method Compress(block: Block)
      requires state.Length == 8
      modifies state
      ensures state[..] == Compressed(old(state[..]), block)
    {
      hide Round, LoadBe32, Extension, Added, Schedule, K;
      var w := new Word[64];
      ScheduleStarts(block);
      for i := 0 to 16
        invariant w[..i] == Schedule(block, i) && state[..] == old(state[..])
      {
        ScheduleGrows(block, i);
        w[i] := LoadBe32(block[4 * i], block[4 * i + 1], block[4 * i + 2], block[4 * i + 3]);
      }
      for i := 16 to 64
        invariant w[..i] == Schedule(block, i) && state[..] == old(state[..])
      {
        ScheduleGrows(block, i);
        w[i] := Extension(w[i - 2], w[i - 7], w[i - 15], w[i - 16]);
      }
      assert state[..] == old(state[..]) && w[..64] == w[..];
      Run(w);
    }

    /** The 64 rounds over a finished schedule, added into the state. */
    method Run(w: array<Word>)
      requires state.Length == 8 && w.Length == 64 && w != state
      modifies state
      ensures state[..] == Added(old(state[..]), Rounds(old(state[..]), w[..], 64))
    {
      hide Round, Added, K;
      ghost var h := state[..];
      var v := Vars(state[0], state[1], state[2], state[3], state[4], state[5], state[6], state[7]);
      for i := 0 to 64
        invariant v == Rounds(h, w[..], i)
      {
        v := Round(v, K(i), w[i]);
      }
      AddVars(v);
    }

    method AddVars(v: Vars)
      requires state.Length == 8
      modifies state
      ensures state[..] == Added(old(state[..]), v)
    {
      var sum := Added(state[..], v);
      forall i | 0 <= i < 8 {
        state[i] := sum[i];
      }
      assert state[..] == sum;
    }

    /** One turn of the copying loop: fill the buffer, and compress it when it is full. */
    method Take(chunk: seq<Byte>)
      requires Buffered() && 0 < |chunk| <= 64 - bufferLen
      modifies this`message, this`bufferLen, state, buffer
      ensures Buffered() && message == old(message) + chunk
    {
      hide Buffers, Compressed;
      ghost var h, tail := state[..], buffer[..bufferLen];
      forall k | 0 <= k < |chunk| {
        buffer[bufferLen + k] := chunk[k];
      }
      bufferLen := bufferLen + |chunk|;
      message := message + chunk;
      assert buffer[..bufferLen] == tail + chunk && state[..] == h;
      if bufferLen == 64 {
        assert buffer[..] == tail + chunk;
        BuffersBlock(h, tail, old(message), chunk);
        Compress(buffer[..]);
        bufferLen := 0;
        assert buffer[..0] == [];
      } else {
        BuffersMore(h, tail, old(message), chunk);
        assert state[..] == h;
      }
    }

    method Update(data: seq<Byte>)
      requires Buffered() && bitCount < TWO64
      modifies this, state, buffer
      ensures Buffered() && message == old(message) + data
      ensures bitCount == (old(bitCount) + 8 * |data|) % TWO64
    {
      hide Buffers;
      bitCount := (bitCount + 8 * |data|) % TWO64;
      var pos := 0;
      while pos < |data|
        invariant pos <= |data|
        invariant Buffered() && message == old(message) + data[..pos]
        invariant bitCount == (old(bitCount) + 8 * |data|) % TWO64
      {
        var space := 64 - bufferLen;
        var take := if |data| - pos < space then |data| - pos else space;
        Take(data[pos..pos + take]);
        assert data[..pos] + data[pos..pos + take] == data[..pos + take];
        pos := pos + take;
      }
      assert data[..|data|] == data;
    }

    /** The mark byte and the zero bytes of the padding. */
    method PadTo56()
      requires Buffered() && bitCount < TWO64
      modifies this, state, buffer
      ensures Buffered() && bitCount < TWO64 && bufferLen == 56
      ensures message == old(message) + [0x80] + Zeros(ZeroBytes(|old(message)|))
    {
      hide Buffers;
      ghost var m, k := message, 0;
      Update([0x80]);
      TailLength(state[..], buffer[..bufferLen], message);
      assert m + [0x80] == m + [0x80] + Zeros(0);
      while bufferLen != 56
        invariant Buffered() && bitCount < TWO64
        invariant message == m + [0x80] + Zeros(k) && bufferLen == (|m| + 1 + k) % 64
        invariant k <= ZeroBytes(|m|)
        decreases ZeroBytes(|m|) - k
      {
        Update([0]);
        assert Zeros(k) + [0] == Zeros(k + 1);
        assert m + [0x80] + Zeros(k) + [0] == m + [0x80] + Zeros(k + 1);
        k := k + 1;
        TailLength(state[..], buffer[..bufferLen], message);
      }
      ZeroBytesIsLeast(|m|, k);
    }

    /** The digest of everything absorbed; the object is left as the constructor makes it. */
    method Finalize() returns (digest: seq<Byte>)
      requires Valid()
      modifies this, state, buffer
      ensures digest == Sha256(old(message))
      ensures Fresh()
    {
      hide Buffers, Absorb, Initial;
      ghost var m := message;
      var bits := bitCount;
      PadTo56();
      bitCount := (bitCount - 64) % TWO64;
      var lengthBe := LengthBytes(bits);
      Update(lengthBe);
      assert message == Pad(m);
      TailLength(state[..], buffer[..bufferLen], message);
      assert buffer[..0] == [];
      BuffersAll(state[..], message);
      digest := [];
      for i := 0 to 8
        invariant digest == HashBytes(state[..i])
      {
        assert state[..i + 1][..i] == state[..i];
        digest := digest + WordBytes(state[i]);
      }
      assert state[..8] == state[..];
      Reset();
    }

    method Reset()
      requires state.Length == 8 && buffer.Length == 64
      modifies this, state, buffer
      ensures Fresh()
    {
      hide Buffers, Initial;
      forall i | 0 <= i < 8 {
        state[i] := Initial()[i];
      }
      bitCount := 0;
      bufferLen := 0;
      forall i | 0 <= i < 64 {
        buffer[i] := 0;
      }
      message := [];
      assert state[..] == Initial();
      assert buffer[..] == Zeros(64);
      assert buffer[..0] == [];
      BuffersNothing();
    }
  }

  lemma TailLength(h: Hash, tail: seq<Byte>, m: seq<Byte>)
    requires Buffers(h, tail, m)
    ensures |tail| == |m| % 64
  {}

  lemma ScheduleStarts(block: Block)
    ensures Schedule(block, 0) == []
  {}

  lemma {:induction false} ScheduleGrows(block: Block, n: nat)
    requires n < 64
    ensures Schedule(block, n + 1) == Schedule(block, n) + [NextWord(block, Schedule(block, n))]
  {
    hide NextWord;
  }

  // ---------- the length field ----------

  method LengthBytes(bits: nat) returns (bytes: seq<Byte>)
    ensures bytes == BigEndian(bits, 8)
  {
    hide BigEndian, Base;
    bytes := [];
    for i := 0 to 8
      invariant bytes == BigEndian(bits, 8)[..i]
    {
      DigitOf(bits, 8, i);
      bytes := bytes + [(bits / Base(7 - i) % 256) as Byte];
    }
  }

  /** The `i`-th byte of a big-endian field, shifted out of the number. */
  lemma {:induction false} DigitOf(n: nat, bytes: nat, i: nat)
    requires i < bytes
    ensures BigEndian(n, bytes)[i] == (n / Base(bytes - 1 - i) % 256) as Byte
  {
    if i < bytes - 1 {
      DigitOf(n / 256, bytes - 1, i);
      DivideTwice(n, Base(bytes - 2 - i));
    }
  }

  lemma DivideTwice(n: nat, b: nat)
    requires b > 0
    ensures n / 256 / b == n / (256 * b)
  {
    var q, r := n / (256 * b), n % (256 * b);
    var s := r / 256;
    assert n == 256 * (b * q) + r;
    assert n / 256 == b * q + s && 0 <= s < b;
    QuotientOf(b, q, s);
  }

  lemma Monotone(b: nat, x: nat, y: nat)
    ensures x <= y ==> b * x <= b * y
  {}

  lemma QuotientOf(b: nat, q: nat, s: nat)
    requires s < b
    ensures (b * q + s) / b == q
  {
    var x := (b * q + s) / b;
    assert b * x <= b * q + s < b * (x + 1);
    Monotone(b, x + 1, q);
    Monotone(b, q + 1, x);
  }

  // ---------- one-shot and chunked hashing ----------

  method HashBuffer(data: seq<Byte>) returns (digest: seq<Byte>)
    ensures digest == Sha256(data)
  {
    hide Buffers, Sha256;
    var h := new Sha256State();
    h.Update(data);
    assert [] + data == data;
    digest := h.Finalize();
  }

  function Concatenation(chunks: seq<seq<Byte>>): seq<Byte> {
    if chunks == [] then [] else Concatenation(chunks[..|chunks| - 1]) + chunks[|chunks| - 1]
  }

  /** Any split of a message into chunks, absorbed in order, hashes to the same digest. */
  method HashChunks(chunks: seq<seq<Byte>>) returns (digest: seq<Byte>)
    ensures digest == Sha256(Concatenation(chunks))
  {
    hide Buffers, Sha256;
    var h := new Sha256State();
    for i := 0 to |chunks|
      invariant h.Valid() && fresh(h) && fresh(h.state) && fresh(h.buffer)
      invariant h.message == Concatenation(chunks[..i])
    {
      assert chunks[..i + 1][..i] == chunks[..i];
      h.Update(chunks[i]);
    }
    assert chunks[..|chunks|] == chunks;
    digest := h.Finalize();
  }
}
