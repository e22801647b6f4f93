/** Run-length encoding: a byte and a 16-bit count for every run. */
module RunLength {
  import opened Words

  datatype Run = Run(byte: Byte, count: nat)

  // The runs of the data, the last one at the end.
  function Runs(data: seq<Byte>): (runs: seq<Run>)
    ensures |data| > 0 ==> |runs| > 0 && runs[|runs| - 1].byte == data[|data| - 1] && runs[|runs| - 1].count > 0
    ensures |runs| <= |data|
  {
    if |data| == 0 then [] else
    var n := |data| - 1;
    var before := Runs(data[..n]);
    if n > 0 && data[n] == data[n - 1] then Longer(before) else before + [Run(data[n], 1)]
  }

  // One more byte for the last run.
  function Longer(runs: seq<Run>): seq<Run>
    requires |runs| > 0
  {
    var n := |runs| - 1;
    runs[n := Run(runs[n].byte, runs[n].count + 1)]
  }

  // What the encoder writes for a run: the byte, and the two bytes of a 16-bit counter.
  function Triple(r: Run): (t: seq<Byte>)
    ensures |t| == 3
  {
    [r.byte, r.count % 65536 % 256, r.count % 65536 / 256]
  }

  function Encoded(runs: seq<Run>): (e: seq<Byte>)
    ensures |e| == 3 * |runs|
  {
    if |runs| == 0 then [] else Encoded(runs[..|runs| - 1]) + Triple(runs[|runs| - 1])
  }

  function Expanded(runs: seq<Run>): seq<Byte> {
    if |runs| == 0 then [] else Expanded(runs[..|runs| - 1]) + Repeat(runs[|runs| - 1].byte, runs[|runs| - 1].count)
  }

  // What the decoder makes of the first `n` triples.
  function Decoded(code: seq<Byte>, n: nat): seq<Byte>
    requires 3 * n <= |code|
  {
    if n == 0 then []
    else Decoded(code, n - 1) + Repeat(code[3 * n - 3], code[3 * n - 2] as int + 256 * code[3 * n - 1] as int)
  }

  // The runs as a 16-bit counter sees them.
  function Wrapped(runs: seq<Run>): seq<Run> {
    seq(|runs|, i requires 0 <= i < |runs| => Run(runs[i].byte, runs[i].count % 65536))
  }

  // ----- the runs of the data -----

  lemma {:induction false} RunsExpand(data: seq<Byte>)
    ensures Expanded(Runs(data)) == data
  {
    if |data| > 0 {
      var n := |data| - 1;
      var before := Runs(data[..n]);
      RunsExpand(data[..n]);
      if n > 0 && data[n] == data[n - 1] {
        ExpandLonger(before);
        assert data[..n] + [data[n]] == data;
      } else {
        var after := before + [Run(data[n], 1)];
        assert after[..|after| - 1] == before;
        assert data[..n] + Repeat(data[n], 1) == data;
      }
    }
  }

  lemma ExpandLonger(runs: seq<Run>)
    requires |runs| > 0
    ensures Expanded(Longer(runs)) == Expanded(runs) + [runs[|runs| - 1].byte]
  {
    var n := |runs| - 1;
    var r := runs[n];
    assert Longer(runs)[..n] == runs[..n];
    RepeatMore(r.byte, r.count);
    ExpandLast(runs);
    ExpandLast(Longer(runs));
    hide Expanded, Repeat;
    var a, b := Expanded(runs[..n]), Repeat(r.byte, r.count);
    assert a + (b + [r.byte]) == a + b + [r.byte];
  }

  lemma RepeatMore(b: Byte, n: nat)
    ensures Repeat(b, n + 1) == Repeat(b, n) + [b]
  {
  }

  lemma ExpandLast(runs: seq<Run>)
    requires |runs| > 0
    ensures Expanded(runs) == Expanded(runs[..|runs| - 1]) + Repeat(runs[|runs| - 1].byte, runs[|runs| - 1].count)
  {
    hide Repeat;
  }

  // Neighbouring runs have different bytes, and no run is empty.
  lemma {:induction false} RunsDiffer(data: seq<Byte>, i: nat)
    requires i < |Runs(data)|
    ensures Runs(data)[i].count > 0 && (i > 0 ==> Runs(data)[i].byte != Runs(data)[i - 1].byte)
  {
    var n := |data| - 1;
    var before := Runs(data[..n]);
    if i < |before| {
      RunsDiffer(data[..n], i);
    }
  }

  // So the encoding has one triple for each run, the byte and then the count with its low byte
  // first, and neighbouring triples differ.
  lemma EncodedTriples(data: seq<Byte>, i: nat)
    requires i < |Runs(data)|
    ensures |Encoded(Runs(data))| == 3 * |Runs(data)|
    ensures Encoded(Runs(data))[3 * i] == Runs(data)[i].byte
    ensures (Encoded(Runs(data))[3 * i + 1] as int + 256 * Encoded(Runs(data))[3 * i + 2] as int - Runs(data)[i].count) % 65536
         == 0
    ensures i > 0 ==> Encoded(Runs(data))[3 * i] != Encoded(Runs(data))[3 * i - 3]
  {
    hide Encoded, Runs;
    var runs := Runs(data);
    var code := Encoded(runs);
    TripleAt(runs, i);
    var r, t := runs[i], code[3 * i..3 * i + 3];
    assert t == Triple(r) && t[1] == code[3 * i + 1] && t[2] == code[3 * i + 2];
    CounterBytes(r.count);
    RunsDiffer(data, i);
    if i > 0 {
      TripleAt(runs, i - 1);
    }
  }

  lemma CounterBytes(n: nat)
    ensures (n % 65536 % 256 + 256 * (n % 65536 / 256) - n) % 65536 == 0
  {
  }

  lemma {:induction false} TripleAt(runs: seq<Run>, i: nat)
    requires i < |runs|
    ensures Encoded(runs)[3 * i..3 * i + 3] == Triple(runs[i])
    ensures Encoded(runs)[3 * i] == runs[i].byte
  {
    var n := |runs| - 1;
    if i < n {
      TripleAt(runs[..n], i);
      assert Encoded(runs)[3 * i..3 * i + 3] == Encoded(runs[..n])[3 * i..3 * i + 3];
    }
  }

  // ----- the round trip -----

  // Decoding an encoding expands the wrapped runs.
  lemma {:induction false} DecodedEncoding(runs: seq<Run>, code: seq<Byte>)
    requires |code| >= 3 * |runs| && code[..3 * |runs|] == Encoded(runs)
    ensures Decoded(code, |runs|) == Expanded(Wrapped(runs))
    decreases |runs|
  {
    hide Expanded, Repeat, Decoded, Wrapped, Encoded;
    if |runs| > 0 {
      var n := |runs| - 1;
      var front, triple := runs[..n], Triple(runs[n]);
      EncodedNext(front, runs[n]);
      assert front + [runs[n]] == runs;
      assert code[..3 * n] == (Encoded(front) + triple)[..3 * n] == Encoded(front);
      assert code[3 * n..3 * n + 3] == (Encoded(front) + triple)[3 * n..] == triple;
      DecodedEncoding(front, code);
      WrappedLast(runs);
      DecodedLast(code, |runs|);
      ExpandLast(Wrapped(runs));
    } else {
      NothingDecoded(code, runs);
    }
  }

  lemma NothingDecoded(code: seq<Byte>, runs: seq<Run>)
    requires |runs| == 0
    ensures Decoded(code, 0) == Expanded(Wrapped(runs))
  {
  }

  lemma WrappedLast(runs: seq<Run>)
    requires |runs| > 0
    ensures |Wrapped(runs)| == |runs| && Wrapped(runs)[..|runs| - 1] == Wrapped(runs[..|runs| - 1])
    ensures Wrapped(runs)[|runs| - 1] == Run(runs[|runs| - 1].byte, runs[|runs| - 1].count % 65536)
  {
  }

  lemma DecodedLast(code: seq<Byte>, n: nat)
    requires n > 0 && 3 * n <= |code|
    ensures var t := code[3 * n - 3..3 * n];
      Decoded(code, n) == Decoded(code, n - 1) + Repeat(t[0], t[1] as int + 256 * t[2] as int)
  {
    hide Repeat;
  }

  lemma {:induction false} ExpandedLength(runs: seq<Run>)
    ensures |Expanded(Wrapped(runs))| <= |Expanded(runs)|
    ensures |Expanded(Wrapped(runs))| == |Expanded(runs)| <==> forall i :: 0 <= i < |runs| ==> runs[i].count < 65536
  {
    if |runs| > 0 {
      var n := |runs| - 1;
      ExpandedLength(runs[..n]);
      assert Wrapped(runs)[..n] == Wrapped(runs[..n]);
      assert forall i :: 0 <= i < n ==> runs[..n][i] == runs[i];
    }
  }

  // The round trip gives the data back exactly when no run is longer than 65535.
  lemma RoundTrip(data: seq<Byte>)
    ensures var code := Encoded(Runs(data));
      Decoded(code, |Runs(data)|) == data <==> forall i :: 0 <= i < |Runs(data)| ==> Runs(data)[i].count <= 65535
  {
    hide Encoded, Decoded, Expanded;
    var runs := Runs(data);
    var code := Encoded(runs);
    assert code[..3 * |runs|] == code;
    DecodedEncoding(runs, code);
    RunsExpand(data);
    ExpandedLength(runs);
    if forall i :: 0 <= i < |runs| ==> runs[i].count < 65536 {
      assert Wrapped(runs) == runs;
    }
  }

  // Equal bytes are one run.
  lemma {:induction false} EqualBytes(b: Byte, n: nat)
    requires n > 0
    ensures Runs(Repeat(b, n)) == [Run(b, n)]
  {
    assert Repeat(b, n)[..n - 1] == Repeat(b, n - 1);
    if n > 1 {
      EqualBytes(b, n - 1);
    }
  }

  // 65536 equal bytes: the counter is 0, and decoding gives nothing.
  lemma LongRunIsLost(b: Byte)
    ensures var data := Repeat(b, 65536);
      && Runs(data) == [Run(b, 65536)] && Encoded(Runs(data)) == [b, 0, 0]
      && Decoded(Encoded(Runs(data)), 1) == [] != data
  {
    EqualBytes(b, 65536);
    assert [Run(b, 65536)][..0] == [];
    assert Decoded([b, 0, 0], 1) == Decoded([b, 0, 0], 0) + Repeat(b, 0);
  }

  // ----- the codec in place -----

  method Encode(data: array<Byte>, length: nat, out: array<Byte>) returns (size: nat)
    requires 1 <= length <= data.Length && 3 * |Runs(data[..length])| <= out.Length && out != data
    modifies out
    ensures size <= out.Length && out[..size] == Encoded(Runs(data[..length])) && data[..] == old(data[..])
  {
    hide Runs, Encoded;
    ghost var bytes := data[..];
    var index := 0;
    var count := 1;
    var i := 1;
    ghost var done: seq<Run> := [];
    ghost var last := 1;
    OneByte(bytes);
    RunsGrow(bytes, 1, length);
    while i < length
      invariant 1 <= i <= length && data[..] == bytes && last > 0 && count == last % 65536
      invariant Runs(bytes[..i]) == done + [Run(bytes[i - 1], last)]
      invariant index == 3 * |done| && index <= out.Length && out[..index] == Encoded(done)
    {
      RunsNext(bytes, i, done, last);
      RunsGrow(bytes, i, length);
      RunsGrow(bytes, i + 1, length);
      if data[i] == data[i - 1] {
        count := (count + 1) % 65536;
        last := last + 1;
      } else {
        EncodedNext(done, Run(bytes[i - 1], last));
        EmitTriple(out, index, data[i - 1], count);
        index := index + 3;
        done := done + [Run(bytes[i - 1], last)];
        count := 1;
        last := 1;
      }
      i := i + 1;
    }
    EncodedNext(done, Run(bytes[length - 1], last));
    EmitTriple(out, index, data[length - 1], count);
    size := index + 3;
  }

  method EmitTriple(out: array<Byte>, index: nat, b: Byte, count: nat)
    requires index + 3 <= out.Length && count < 65536
    modifies out
    ensures out[..index + 3] == old(out[..index]) + [b, count % 256, count / 256]
  {
    out[index], out[index + 1], out[index + 2] := b, count % 256, count / 256;
  }

  lemma OneByte(data: seq<Byte>)
    requires |data| > 0
    ensures Runs(data[..1]) == [] + [Run(data[0], 1)]
  {
    assert data[..1][..0] == [];
  }

  lemma RunsNext(data: seq<Byte>, i: nat, done: seq<Run>, last: nat)
    requires 1 <= i < |data| && Runs(data[..i]) == done + [Run(data[i - 1], last)]
    ensures data[i] == data[i - 1] ==> Runs(data[..i + 1]) == done + [Run(data[i], last + 1)]
    ensures data[i] != data[i - 1] ==> Runs(data[..i + 1]) == done + [Run(data[i - 1], last)] + [Run(data[i], 1)]
  {
    assert data[..i + 1][..i] == data[..i];
  }

  // More data has at least as many runs.
  lemma {:induction false} RunsGrow(data: seq<Byte>, i: nat, n: nat)
    requires i <= n <= |data|
    ensures |Runs(data[..i])| <= |Runs(data[..n])|
    decreases n - i
  {
    if i < n {
      RunsGrow(data, i, n - 1);
      assert data[..n][..n - 1] == data[..n - 1];
    }
  }

  lemma EncodedNext(done: seq<Run>, r: Run)
    ensures Encoded(done + [r]) == Encoded(done) + Triple(r)
  {
    assert (done + [r])[..|done|] == done;
  }

  method Decode(code: array<Byte>, length: nat, out: array<Byte>) returns (size: nat)
    requires length <= code.Length && length % 3 == 0 && out != code
    requires |Decoded(code[..], length / 3)| <= out.Length
    modifies out
    ensures size <= out.Length && out[..size] == Decoded(code[..], length / 3)
  {
    hide Decoded, Repeat;
    ghost var bytes := code[..];
    size := 0;
    var i := 0;
    NothingRead(bytes);
    while i < length
      invariant i <= length && i % 3 == 0 && code[..] == bytes
      invariant size <= out.Length && out[..size] == Decoded(bytes, i / 3)
    {
      DecodedNext(bytes, i / 3, length / 3);
      var b, count := code[i], code[i + 1] as int + 256 * code[i + 2] as int;
      ghost var before := out[..size];
      RepeatNone(b);
      var j := 0;
      while j < count
        invariant 0 <= j <= count && size == |before| + j && size <= out.Length
        invariant code[..] == bytes && |before| + count <= out.Length && out[..size] == before + Repeat(b, j)
      {
        out[size] := b;
        RepeatMore(b, j);
        assert out[..size + 1] == before + Repeat(b, j) + [b] == before + (Repeat(b, j) + [b]);
        size := size + 1;
        j := j + 1;
      }
      i := i + 3;
    }
  }

  lemma {:induction false} DecodedNext(code: seq<Byte>, k: nat, n: nat)
    requires k < n && 3 * n <= |code|
    ensures Decoded(code, k + 1)
         == Decoded(code, k) + Repeat(code[3 * k], code[3 * k + 1] as int + 256 * code[3 * k + 2] as int)
    ensures |Decoded(code, k + 1)| <= |Decoded(code, n)|
    decreases n
  {
    hide Repeat;
    if k + 1 < n {
      DecodedNext(code, k, n - 1);
    }
  }

  lemma NothingRead(code: seq<Byte>)
    ensures Decoded(code, 0) == []
  {
  }

  lemma RepeatNone(b: Byte)
    ensures Repeat(b, 0) == []
  {
  }
}
