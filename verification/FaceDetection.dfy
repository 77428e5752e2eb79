/**
 * The two face detectors' result decoding. A raw detection row holds the
 * label index, the score and the box in columns 0 to 5; the remote detector
 * reads 20 such rows of 134 columns, the last 128 being the embedding, from
 * the buffer shared with the detector process.
 */
module FaceDetection {
  import opened Wrappers
  import opened PyBuiltins
  import Doods

  /** The default score below which decoding stops. */
  const DEFAULT_THRESHOLD: real := 0.4
  const EMBEDDING_SIZE: nat := 128

  type Box4 = (real, real, real, real)

  /** An entry of `LocalFaceDetector.detect`: label, score and box. */
  datatype FaceBox = FaceBox(name: string, score: real, box: Box4)

  /** An entry of `RemoteFaceDetector.detect`: label, score, box and embedding. */
  datatype RemoteFace = RemoteFace(name: string, score: real, box: Box4, embedding: seq<real>)

  /** Every raw row has at least the six leading columns. */
  predicate RawShape(rows: seq<seq<real>>)
  {
    forall k :: 0 <= k < |rows| ==> |rows[k]| >= 6
  }

  function BoxOf(row: seq<real>): Box4
    requires |row| >= 6
  {
    (row[2], row[3], row[4], row[5])
  }

  /** The local range check: the label index lies in `0..len(labels)-1`. */
  predicate LabelInRange(labels: map<int, string>, row: seq<real>)
    requires |row| >= 1
  {
    0 <= Trunc(row[0]) < |labels|
  }

  function PrependAll<T>(xs: seq<T>, rest: Result<seq<T>, PyError>): Result<seq<T>, PyError>
  {
    match rest
    case Success(ys) => Success(xs + ys)
    case Failure(e) => Failure(e)
  }

  /**
   * What `LocalFaceDetector.detect` returns for the raw rows: rows with a
   * label index out of range are skipped, the first remaining row below the
   * threshold ends the scan, and a label index in range that is not a key of
   * the label map raises `KeyError`.
   */
  function LocalDecoded(labels: map<int, string>, rows: seq<seq<real>>, threshold: real): (r: Result<seq<FaceBox>, PyError>)
    requires RawShape(rows)
    ensures r.Success? ==> |r.value| <= |rows|
    ensures r.Success? ==> forall j :: 0 <= j < |r.value| ==>
              r.value[j].score >= threshold && r.value[j].name in labels.Values
  {
    if rows == [] then Success([])
    else
      var d := rows[0];
      if !LabelInRange(labels, d) then LocalDecoded(labels, rows[1..], threshold)
      else if d[1] < threshold then Success([])
      else if Trunc(d[0]) !in labels then Failure(KeyError)
      else PrependAll([FaceBox(labels[Trunc(d[0])], d[1], BoxOf(d))], LocalDecoded(labels, rows[1..], threshold))
  }

  /** The result-filter loop of `LocalFaceDetector.detect` over the rows `detect_raw` returned. */
  method LocalDetect(labels: map<int, string>, rawDetections: seq<seq<real>>, threshold: real)
    returns (r: Result<seq<FaceBox>, PyError>)
    requires RawShape(rawDetections)
    ensures r == LocalDecoded(labels, rawDetections, threshold)
  {
    var detections: seq<FaceBox> := [];
    var i := 0;
    assert rawDetections[0..] == rawDetections;
    PrependAllEmpty(LocalDecoded(labels, rawDetections, threshold));
    while i < |rawDetections|
      invariant 0 <= i <= |rawDetections|
      invariant LocalDecoded(labels, rawDetections, threshold) ==
                PrependAll(detections, LocalDecoded(labels, rawDetections[i..], threshold))
    {
      var d := rawDetections[i];
      assert rawDetections[i..][1..] == rawDetections[i + 1..];
      if Trunc(d[0]) < 0 || Trunc(d[0]) >= |labels| {
        i := i + 1;
        continue;
      }
      if d[1] < threshold {
        break;
      }
      if Trunc(d[0]) !in labels {
        return Failure(KeyError);
      }
      var entry := FaceBox(labels[Trunc(d[0])], d[1], (d[2], d[3], d[4], d[5]));
      PrependAllAssoc(detections, [entry], LocalDecoded(labels, rawDetections[i + 1..], threshold));
      detections := detections + [entry];
      i := i + 1;
    }
    assert LocalDecoded(labels, rawDetections[i..], threshold) == Success([]);
    assert detections + [] == detections;
    return Success(detections);
  }

  lemma PrependAllEmpty<T>(rest: Result<seq<T>, PyError>)
    ensures PrependAll([], rest) == rest
  {
    if rest.Success? {
      assert [] + rest.value == rest.value;
    }
  }

  lemma PrependAllAssoc<T>(xs: seq<T>, ys: seq<T>, rest: Result<seq<T>, PyError>)
    ensures PrependAll(xs, PrependAll(ys, rest)) == PrependAll(xs + ys, rest)
  {
    if rest.Success? {
      assert xs + (ys + rest.value) == xs + ys + rest.value;
    }
  }

  /** Rows whose label index is out of range are passed over: what follows them decides the result. */
  lemma {:induction false} LocalSkipsInvalid(labels: map<int, string>, skipped: seq<seq<real>>, rows: seq<seq<real>>, threshold: real)
    requires RawShape(skipped) && RawShape(rows)
    requires forall k :: 0 <= k < |skipped| ==> !LabelInRange(labels, skipped[k])
    ensures RawShape(skipped + rows)
    ensures LocalDecoded(labels, skipped + rows, threshold) == LocalDecoded(labels, rows, threshold)
  {
    if skipped != [] {
      assert (skipped + rows)[1..] == skipped[1..] + rows;
      LocalSkipsInvalid(labels, skipped[1..], rows, threshold);
    } else {
      assert skipped + rows == rows;
    }
  }

  /** The first in-range row scoring below the threshold ends the scan: later rows are ignored. */
  lemma {:induction false} LocalStopsAtLowScore(labels: map<int, string>, before: seq<seq<real>>, stop: seq<real>,
                                                after: seq<seq<real>>, threshold: real)
    requires RawShape(before) && RawShape(after) && |stop| >= 6
    requires LabelInRange(labels, stop) && stop[1] < threshold
    ensures RawShape(before + [stop]) && RawShape(before + [stop] + after)
    ensures LocalDecoded(labels, before + [stop] + after, threshold) == LocalDecoded(labels, before + [stop], threshold)
  {
    if before != [] {
      assert (before + [stop] + after)[1..] == before[1..] + [stop] + after;
      assert (before + [stop])[1..] == before[1..] + [stop];
      LocalStopsAtLowScore(labels, before[1..], stop, after, threshold);
    } else {
      assert (before + [stop] + after)[0] == stop;
      assert (before + [stop])[0] == stop;
    }
  }

  /** The positions of the rows the local decoding emits. */
  ghost function LocalPositions(labels: map<int, string>, rows: seq<seq<real>>, threshold: real): seq<nat>
    requires RawShape(rows)
  {
    if rows == [] then []
    else
      var d := rows[0];
      var rest := Shifted(LocalPositions(labels, rows[1..], threshold));
      if !LabelInRange(labels, d) then rest
      else if d[1] < threshold then []
      else [0] + rest
  }

  /** Every position one further on. */
  ghost function Shifted(pos: seq<nat>): (r: seq<nat>)
    ensures |r| == |pos| && forall j :: 0 <= j < |pos| ==> r[j] == pos[j] + 1
  {
    seq(|pos|, j requires 0 <= j < |pos| => pos[j] + 1)
  }

  /**
   * `out` lists, in input order, the entries of the rows at `pos`: each of
   * those rows has its label in range and scores at least the threshold,
   * and its entry is its label, score and box.
   */
  ghost predicate EmitsInOrder(labels: map<int, string>, rows: seq<seq<real>>, threshold: real,
                               out: seq<FaceBox>, pos: seq<nat>)
    requires RawShape(rows)
  {
    && |pos| == |out|
    && (forall j :: 0 <= j < |pos| ==> pos[j] < |rows|)
    && (forall j, k :: 0 <= j < k < |pos| ==> pos[j] < pos[k])
    && (forall j :: 0 <= j < |pos| ==>
          var d := rows[pos[j]];
          LabelInRange(labels, d) && d[1] >= threshold && Trunc(d[0]) in labels &&
          out[j] == FaceBox(labels[Trunc(d[0])], d[1], BoxOf(d)))
  }

  /**
   * The local output lists, in input order, the entry of each emitted row:
   * every emitted row has its label in range and scores at least the
   * threshold, and its entry is its label, score and box.
   */
  lemma {:induction false} LocalInInputOrder(labels: map<int, string>, rows: seq<seq<real>>, threshold: real)
    requires RawShape(rows)
    requires LocalDecoded(labels, rows, threshold).Success?
    ensures EmitsInOrder(labels, rows, threshold, LocalDecoded(labels, rows, threshold).value,
                         LocalPositions(labels, rows, threshold))
  {
    if rows != [] {
      var d := rows[0];
      if !LabelInRange(labels, d) || d[1] >= threshold {
        LocalInInputOrder(labels, rows[1..], threshold);
        var out := LocalDecoded(labels, rows[1..], threshold).value;
        var pos := LocalPositions(labels, rows[1..], threshold);
        if !LabelInRange(labels, d) {
          EmitsSkipping(labels, rows, threshold, out, pos);
        } else {
          EmitsEmitting(labels, rows, threshold, out, pos);
        }
      }
    }
  }

  /** A skipped first row shifts the positions and keeps the entries. */
  lemma EmitsSkipping(labels: map<int, string>, rows: seq<seq<real>>, threshold: real,
                      out: seq<FaceBox>, pos: seq<nat>)
    requires RawShape(rows) && rows != []
    requires EmitsInOrder(labels, rows[1..], threshold, out, pos)
    ensures EmitsInOrder(labels, rows, threshold, out, Shifted(pos))
  {
    assert forall k :: 0 <= k < |rows[1..]| ==> rows[1..][k] == rows[k + 1];
  }

  /** An emitted first row puts its entry first, at position 0. */
  lemma EmitsEmitting(labels: map<int, string>, rows: seq<seq<real>>, threshold: real,
                      out: seq<FaceBox>, pos: seq<nat>)
    requires RawShape(rows) && rows != []
    requires LabelInRange(labels, rows[0]) && rows[0][1] >= threshold && Trunc(rows[0][0]) in labels
    requires EmitsInOrder(labels, rows[1..], threshold, out, pos)
    ensures EmitsInOrder(labels, rows, threshold,
                         [FaceBox(labels[Trunc(rows[0][0])], rows[0][1], BoxOf(rows[0]))] + out, [0] + Shifted(pos))
  {
    EmitsSkipping(labels, rows, threshold, out, pos);
  }

  /** The cells of a result buffer, row by row. */
  function BufferRows(buf: array2<real>): (rows: seq<seq<real>>)
    reads buf
    ensures |rows| == buf.Length0 && forall i :: 0 <= i < |rows| ==> |rows[i]| == buf.Length1
  {
    seq(buf.Length0, i requires 0 <= i < buf.Length0 reads buf =>
      seq(buf.Length1, j requires 0 <= j < buf.Length1 reads buf => buf[i, j]))
  }

  /** Every row holds a label index, a score, a box and the 128 embedding values. */
  predicate BufferShape(rows: seq<seq<real>>)
  {
    forall k :: 0 <= k < |rows| ==> |rows[k]| == Doods.COLUMNS
  }

  /** The entry the remote detector builds from one row. */
  function RemoteEntry(labels: map<int, string>, d: seq<real>): RemoteFace
    requires |d| == Doods.COLUMNS && Trunc(d[0]) in labels
  {
    RemoteFace(labels[Trunc(d[0])], d[1], BoxOf(d), d[6..])
  }

  /**
   * What the remote decoding returns for the buffer rows: the scan stops at
   * the first row below the threshold, and a label index that is not a key
   * of the label map raises `KeyError`; there is no range check.
   */
  function RemoteDecoded(labels: map<int, string>, rows: seq<seq<real>>, threshold: real): (r: Result<seq<RemoteFace>, PyError>)
    requires BufferShape(rows)
    ensures r.Success? ==> |r.value| <= |rows|
    ensures r.Success? ==> forall j :: 0 <= j < |r.value| ==>
              r.value[j].score >= threshold && |r.value[j].embedding| == EMBEDDING_SIZE
  {
    if rows == [] || rows[0][1] < threshold then Success([])
    else if Trunc(rows[0][0]) !in labels then Failure(KeyError)
    else PrependAll([RemoteEntry(labels, rows[0])], RemoteDecoded(labels, rows[1..], threshold))
  }

  /** The client side of a face detector that runs in another process. */
  class RemoteFaceDetector {
    const name: string
    const labels: map<int, string>
    /** The 20 by 134 result buffer the detector process writes. */
    const outBuf: array2<real>
    /** Whether the shared stop event is set. */
    var stopSet: bool
    /** The connection names put on the detection queue, oldest first. */
    var queue: seq<string>
    /** The shared input frame. */
    var frame: seq<int>

    ghost predicate Valid()
      reads this
    {
      outBuf.Length0 == Doods.ROWS && outBuf.Length1 == Doods.COLUMNS
    }

    constructor (name: string, labels: map<int, string>, outBuf: array2<real>, stopSet: bool)
      requires outBuf.Length0 == Doods.ROWS && outBuf.Length1 == Doods.COLUMNS
      ensures Valid()
      ensures this.name == name && this.labels == labels && this.outBuf == outBuf
      ensures this.stopSet == stopSet && queue == [] && frame == []
    {
      this.name := name;
      this.labels := labels;
      this.outBuf := outBuf;
      this.stopSet := stopSet;
      queue := [];
      frame := [];
    }

    /**
     * `RemoteFaceDetector.detect`: when stopping, nothing is sent and the
     * result is empty; otherwise the frame is copied, the name queued and
     * the buffer decoded.
     */
    method Detect(tensorInput: seq<int>, threshold: real) returns (r: Result<seq<RemoteFace>, PyError>)
      requires Valid()
      modifies this
      ensures Valid() && stopSet == old(stopSet)
      ensures old(stopSet) ==> r == Success([]) && queue == old(queue) && frame == old(frame)
      ensures !old(stopSet) ==> queue == old(queue) + [name] && frame == tensorInput
      ensures !old(stopSet) ==> r == RemoteDecoded(labels, BufferRows(outBuf), threshold)
    {
      if stopSet {
        return Success([]);
      }
      frame := tensorInput;
      queue := queue + [name];
      r := DecodeBuffer(threshold);
    }

    /** The buffer-decode loop: one entry per row until a score below the threshold. */
    method DecodeBuffer(threshold: real) returns (r: Result<seq<RemoteFace>, PyError>)
      requires Valid()
      ensures r == RemoteDecoded(labels, BufferRows(outBuf), threshold)
    {
      ghost var rows := BufferRows(outBuf);
      var detections: seq<RemoteFace> := [];
      var i := 0;
      assert rows[0..] == rows;
      PrependAllEmpty(RemoteDecoded(labels, rows, threshold));
      while i < Doods.ROWS
        invariant 0 <= i <= Doods.ROWS
        invariant RemoteDecoded(labels, rows, threshold) == PrependAll(detections, RemoteDecoded(labels, rows[i..], threshold))
      {
        assert rows[i..][0] == rows[i];
        assert rows[i..][1..] == rows[i + 1..];
        if outBuf[i, 1] < threshold {
          break;
        }
        if Trunc(outBuf[i, 0]) !in labels {
          return Failure(KeyError);
        }
        var embedding: seq<real> := [];
        for x := 0 to EMBEDDING_SIZE
          invariant embedding == rows[i][6..6 + x]
        {
          embedding := embedding + [outBuf[i, x + 6]];
        }
        var entry := RemoteFace(labels[Trunc(outBuf[i, 0])], outBuf[i, 1],
                                (outBuf[i, 2], outBuf[i, 3], outBuf[i, 4], outBuf[i, 5]), embedding);
        assert entry == RemoteEntry(labels, rows[i]);
        PrependAllAssoc(detections, [entry], RemoteDecoded(labels, rows[i + 1..], threshold));
        detections := detections + [entry];
        i := i + 1;
      }
      assert RemoteDecoded(labels, rows[i..], threshold) == Success([]);
      assert detections + [] == detections;
      return Success(detections);
    }
  }

  /**
   * The remote path lacks the local range check: with labels keyed
   * `0..n-1`, an above-threshold row whose label index is out of range is
   * skipped locally but makes the remote decoding raise `KeyError`.
   */
  lemma RemoteLacksRangeCheck(labels: map<int, string>, d: seq<real>, rest: seq<seq<real>>, threshold: real)
    requires forall k :: k in labels ==> 0 <= k < |labels|
    requires |d| == Doods.COLUMNS && BufferShape(rest)
    requires !LabelInRange(labels, d) && d[1] >= threshold
    ensures RawShape([d] + rest) && BufferShape([d] + rest)
    ensures LocalDecoded(labels, [d] + rest, threshold) == LocalDecoded(labels, rest, threshold)
    ensures RemoteDecoded(labels, [d] + rest, threshold) == Failure(KeyError)
  {
    assert ([d] + rest)[1..] == rest;
  }

  /** Rows that all pass the threshold, up to a stop row or the end, decode to their entries. */
  lemma {:induction false} RemoteDecodesPrefix(labels: map<int, string>, rows: seq<seq<real>>, n: nat, threshold: real)
    requires BufferShape(rows) && n <= |rows|
    requires forall k :: 0 <= k < n ==> rows[k][1] >= threshold && Trunc(rows[k][0]) in labels
    requires n < |rows| ==> rows[n][1] < threshold
    ensures RemoteDecoded(labels, rows, threshold) ==
            Success(seq(n, k requires 0 <= k < n => RemoteEntry(labels, rows[k])))
  {
    var want := seq(n, k requires 0 <= k < n => RemoteEntry(labels, rows[k]));
    if n == 0 {
      if rows != [] {
        assert rows[0][1] < threshold;
      }
      assert want == [];
    } else {
      assert forall k :: 0 <= k < |rows| - 1 ==> rows[1..][k] == rows[k + 1];
      RemoteDecodesPrefix(labels, rows[1..], n - 1, threshold);
      var tail := seq(n - 1, k requires 0 <= k < n - 1 => RemoteEntry(labels, rows[1..][k]));
      assert RemoteDecoded(labels, rows, threshold) == PrependAll([RemoteEntry(labels, rows[0])], Success(tail));
      assert [RemoteEntry(labels, rows[0])] + tail == want;
    }
  }

  /**
   * `LocalFaceDetector.detect_raw` over the DOODS plugin as written: the
   * plugin returns the bare matrix, and unpacking it into the detections and
   * the timeout flag iterates its 20 rows, so every call that does not raise
   * in the plugin raises `ValueError`.
   */
  function DoodsDetectRawAsWritten(reply: Doods.DoodsReply): (r: Result<(seq<real>, seq<real>), PyError>)
    ensures r.Failure?
    ensures Doods.Packed(reply).Success? ==> r.error == ValueError("too many values to unpack (expected 2)")
    ensures Doods.Packed(reply).Failure? ==> r.error == Doods.Packed(reply).error
  {
    match Doods.Packed(reply)
    case Failure(e) => Failure(e)
    case Success(rows) => UnpackPair(rows)
  }

  /** The entry a DOODS prediction should decode to: its embedding padded with zeros to 128 values. */
  function DoodsFace(name: string, p: Doods.Prediction): RemoteFace
    requires p.embeddings.Some? && |p.embeddings.value| <= EMBEDDING_SIZE
  {
    RemoteFace(name, p.confidence, (p.yMin, p.xMin, p.yMax, p.xMax),
               p.embeddings.value + Doods.Zeros(EMBEDDING_SIZE - |p.embeddings.value|))
  }

  /** One packed row decodes to its prediction's entry. */
  lemma RowDecodes(labels: map<int, string>, p: Doods.Prediction, row: seq<real>)
    requires 0 in labels
    requires Doods.PackedRow(p) == Success(row)
    ensures |row| == Doods.COLUMNS && Trunc(row[0]) in labels
    ensures p.embeddings.Some? && |p.embeddings.value| <= EMBEDDING_SIZE
    ensures RemoteEntry(labels, row) == DoodsFace(labels[0], p)
  {
    assert Trunc(0.0) == 0;
    var e := p.embeddings.value;
    assert row[6..] == e + Doods.Zeros(EMBEDDING_SIZE - |e|);
  }

  /**
   * Decoding what the DOODS client packed, with the face label at index 0
   * and the default threshold, gives back one entry per written prediction:
   * its confidence, its box in y, x order, and its embedding padded with
   * zeros to 128 values.
   */
  lemma DoodsRoundTrip(labels: map<int, string>, preds: seq<Doods.Prediction>)
    requires 0 in labels
    requires Doods.Packed(Doods.Reply(Some(preds))).Success?
    ensures var rows := Doods.Packed(Doods.Reply(Some(preds))).value;
            var n := Doods.StopIndex(preds, Doods.ROWS);
            && BufferShape(rows)
            && (forall k :: 0 <= k < n ==>
                  preds[k].embeddings.Some? && |preds[k].embeddings.value| <= EMBEDDING_SIZE)
            && RemoteDecoded(labels, rows, DEFAULT_THRESHOLD) ==
               Success(seq(n, k requires 0 <= k < n && preds[k].embeddings.Some? &&
                                         |preds[k].embeddings.value| <= EMBEDDING_SIZE =>
                             DoodsFace(labels[0], preds[k])))
  {
    var rows := Doods.Packed(Doods.Reply(Some(preds))).value;
    var n := Doods.StopIndex(preds, Doods.ROWS);
    Doods.PackedRowsLayout(preds, 0);
    forall k | 0 <= k < n
      ensures preds[k].embeddings.Some? && |preds[k].embeddings.value| <= EMBEDDING_SIZE
      ensures Trunc(rows[k][0]) in labels && rows[k][1] >= DEFAULT_THRESHOLD
      ensures RemoteEntry(labels, rows[k]) == DoodsFace(labels[0], preds[k])
    {
      RowDecodes(labels, preds[k], rows[k]);
    }
    if n < Doods.ROWS {
      assert rows[n] == Doods.Zeros(Doods.COLUMNS);
    }
    RemoteDecodesPrefix(labels, rows, n, DEFAULT_THRESHOLD);
    var got := seq(n, k requires 0 <= k < n => RemoteEntry(labels, rows[k]));
    var want := seq(n, k requires 0 <= k < n && preds[k].embeddings.Some? &&
                                  |preds[k].embeddings.value| <= EMBEDDING_SIZE =>
                  DoodsFace(labels[0], preds[k]));
    assert got == want;
  }

  /**
   * Through the corrected `detect_raw`, a DOODS reply with predictions reaches
   * the result buffer unpacked, with the request not failed, and decodes to
   * one entry per written prediction.
   */
  lemma DoodsPairRoundTrip(labels: map<int, string>, preds: seq<Doods.Prediction>)
    requires 0 in labels
    requires Doods.Packed(Doods.Reply(Some(preds))).Success?
    ensures var pair := Doods.DetectRawPair(Doods.Reply(Some(preds)));
            var n := Doods.StopIndex(preds, Doods.ROWS);
            && pair.Success? && !pair.value.1 && BufferShape(pair.value.0)
            && (forall k :: 0 <= k < n ==>
                  preds[k].embeddings.Some? && |preds[k].embeddings.value| <= EMBEDDING_SIZE)
            && RemoteDecoded(labels, pair.value.0, DEFAULT_THRESHOLD) ==
               Success(seq(n, k requires 0 <= k < n && preds[k].embeddings.Some? &&
                                         |preds[k].embeddings.value| <= EMBEDDING_SIZE =>
                             DoodsFace(labels[0], preds[k])))
  {
    DoodsRoundTrip(labels, preds);
  }
}
