/**
 * The DOODS face detector client: the reply of the DOODS service packed
 * into the fixed 20 by 134 result matrix the face pipeline reads. Row `i`
 * holds `0, confidence, y_min, x_min, y_max, x_max` and then the embedding.
 */
module Doods {
  import opened Wrappers
  import opened PyBuiltins

  const ROWS: nat := 20
  const COLUMNS: nat := 134
  /** The first embedding column. */
  const EMBEDDING_START: nat := 6
  /** Predictions below this confidence end the packing. */
  const MIN_CONFIDENCE: real := 0.4

  /** One entry of `predictions`; `embeddings` is `None` when the key is missing. */
  datatype Prediction = Prediction(
    confidence: real, yMin: real, xMin: real, yMax: real, xMax: real, embeddings: Option<seq<real>>)

  /** The outcome of the POST: it raised, or it returned a body with or without `predictions`. */
  datatype DoodsReply = RequestFailed | Reply(predictions: Option<seq<Prediction>>)

  function Zeros(n: nat): (z: seq<real>)
    ensures |z| == n && forall k :: 0 <= k < n ==> z[k] == 0.0
  {
    seq(n, k => 0.0)
  }

  function ZeroRows(n: nat): (rows: seq<seq<real>>)
    ensures |rows| == n && forall k :: 0 <= k < n ==> rows[k] == Zeros(COLUMNS)
  {
    seq(n, k => Zeros(COLUMNS))
  }

  /**
   * The row written for one prediction. Iterating a missing embedding list
   * raises `TypeError`; a column past the last raises `IndexError`.
   */
  function PackedRow(p: Prediction): (r: Result<seq<real>, PyError>)
    ensures p.embeddings.None? ==> r == Failure(TypeError)
    ensures p.embeddings.Some? && |p.embeddings.value| > COLUMNS - EMBEDDING_START ==> r == Failure(IndexError)
    ensures r.Success? ==>
              var row := r.value;
              && |row| == COLUMNS
              && row[0] == 0.0 && row[1] == p.confidence
              && row[2] == p.yMin && row[3] == p.xMin && row[4] == p.yMax && row[5] == p.xMax
              && p.embeddings.Some?
              && (forall g :: 0 <= g < |p.embeddings.value| ==> row[EMBEDDING_START + g] == p.embeddings.value[g])
              && (forall c :: EMBEDDING_START + |p.embeddings.value| <= c < COLUMNS ==> row[c] == 0.0)
  {
    match p.embeddings
    case None => Failure(TypeError)
    case Some(e) =>
      if |e| > COLUMNS - EMBEDDING_START then Failure(IndexError)
      else Success([0.0, p.confidence, p.yMin, p.xMin, p.yMax, p.xMax] + e + Zeros(COLUMNS - EMBEDDING_START - |e|))
  }

  /** Rows `i` to 19 after packing `preds`, the predictions from index `i` on. */
  function PackedRows(preds: seq<Prediction>, i: nat): (r: Result<seq<seq<real>>, PyError>)
    requires i <= ROWS
    ensures r.Success? ==> |r.value| == ROWS - i && forall k :: 0 <= k < |r.value| ==> |r.value[k]| == COLUMNS
    decreases |preds|
  {
    if preds == [] || preds[0].confidence < MIN_CONFIDENCE || i == ROWS then Success(ZeroRows(ROWS - i))
    else
      match PackedRow(preds[0])
      case Failure(e) => Failure(e)
      case Success(row) =>
        match PackedRows(preds[1..], i + 1)
        case Failure(e) => Failure(e)
        case Success(rest) => Success([row] + rest)
  }

  /** The matrix `detect_raw` returns; a failed request or a reply without predictions gives all zeros. */
  function Packed(reply: DoodsReply): (r: Result<seq<seq<real>>, PyError>)
    ensures r.Success? ==> |r.value| == ROWS && forall k :: 0 <= k < ROWS ==> |r.value[k]| == COLUMNS
    ensures reply.RequestFailed? || reply.predictions.None? ==> r == Success(ZeroRows(ROWS))
  {
    match reply
    case RequestFailed => Success(ZeroRows(ROWS))
    case Reply(None) => Success(ZeroRows(ROWS))
    case Reply(Some(preds)) => PackedRows(preds, 0)
  }

  /**
   * `detect_raw` returning the pair its callers unpack: the matrix, and
   * whether the request failed, which is what the detector process pauses on.
   */
  function DetectRawPair(reply: DoodsReply): (r: Result<(seq<seq<real>>, bool), PyError>)
    ensures r.Success? <==> Packed(reply).Success?
    ensures r.Failure? ==> r.error == Packed(reply).error
    ensures r.Success? ==> r.value.0 == Packed(reply).value && (r.value.1 <==> reply.RequestFailed?)
  {
    match Packed(reply)
    case Failure(e) => Failure(e)
    case Success(rows) => Success((rows, reply.RequestFailed?))
  }

  /** How many rows get written: up to the first low confidence, the end of the list, or the cap. */
  function StopIndex(preds: seq<Prediction>, cap: nat): (n: nat)
    ensures n <= cap && n <= |preds|
    ensures forall k :: 0 <= k < n ==> preds[k].confidence >= MIN_CONFIDENCE
    ensures n < cap && n < |preds| ==> preds[n].confidence < MIN_CONFIDENCE
  {
    if preds == [] || preds[0].confidence < MIN_CONFIDENCE || cap == 0 then 0
    else 1 + StopIndex(preds[1..], cap - 1)
  }

  /** Packing succeeds exactly when every written row does. */
  lemma {:induction false} PackedRowsSucceed(preds: seq<Prediction>, i: nat)
    requires i <= ROWS
    ensures PackedRows(preds, i).Success? <==>
              forall k :: 0 <= k < StopIndex(preds, ROWS - i) ==> PackedRow(preds[k]).Success?
    decreases |preds|
  {
    if !(preds == [] || preds[0].confidence < MIN_CONFIDENCE || i == ROWS) && PackedRow(preds[0]).Success? {
      PackedRowsSucceed(preds[1..], i + 1);
      assert forall k :: 1 <= k < |preds| ==> preds[1..][k - 1] == preds[k];
    }
  }

  /** The first `StopIndex` rows are those of the predictions, every later row is zero. */
  lemma {:induction false} PackedRowsLayout(preds: seq<Prediction>, i: nat)
    requires i <= ROWS
    requires PackedRows(preds, i).Success?
    ensures forall k :: 0 <= k < StopIndex(preds, ROWS - i) ==>
              PackedRow(preds[k]).Success? && PackedRows(preds, i).value[k] == PackedRow(preds[k]).value
    ensures forall k :: StopIndex(preds, ROWS - i) <= k < ROWS - i ==> PackedRows(preds, i).value[k] == Zeros(COLUMNS)
    decreases |preds|
  {
    if !(preds == [] || preds[0].confidence < MIN_CONFIDENCE || i == ROWS) {
      PackedRowsLayout(preds[1..], i + 1);
      assert forall k :: 1 <= k < |preds| ==> preds[1..][k - 1] == preds[k];
    }
  }

  /** A failed packing reports the error of the first written row that fails. */
  lemma {:induction false} PackedRowsFirstError(preds: seq<Prediction>, i: nat)
    requires i <= ROWS
    requires PackedRows(preds, i).Failure?
    ensures exists k :: 0 <= k < StopIndex(preds, ROWS - i) && PackedRow(preds[k]) == Failure(PackedRows(preds, i).error) &&
                        forall j :: 0 <= j < k ==> PackedRow(preds[j]).Success?
    decreases |preds|
  {
    var n := StopIndex(preds, ROWS - i);
    var e := PackedRows(preds, i).error;
    if PackedRow(preds[0]).Failure? {
      assert 0 < n && PackedRow(preds[0]) == Failure(e);
    } else {
      PackedRowsFirstError(preds[1..], i + 1);
      var k :| 0 <= k < StopIndex(preds[1..], ROWS - (i + 1)) && PackedRow(preds[1..][k]) == Failure(e) &&
                forall j :: 0 <= j < k ==> PackedRow(preds[1..][j]).Success?;
      assert forall j :: 1 <= j < k + 1 ==> preds[1..][j - 1] == preds[j];
      assert PackedRow(preds[k + 1]) == Failure(e);
    }
  }

  /** No more than 20 rows are ever written: predictions from the 21st on are ignored. */
  lemma AtMostTwentyRows(preds: seq<Prediction>)
    requires ROWS <= |preds|
    ensures PackedRows(preds, 0) == PackedRows(preds[..ROWS], 0)
  {
    PackedPrefix(preds, ROWS, 0);
  }

  /** Predictions from the stop on never reach the matrix. */
  lemma {:induction false} PackedPrefix(preds: seq<Prediction>, m: nat, i: nat)
    requires i <= ROWS
    requires StopIndex(preds, ROWS - i) <= m <= |preds|
    ensures PackedRows(preds, i) == PackedRows(preds[..m], i)
    decreases |preds|
  {
    if preds == [] || preds[0].confidence < MIN_CONFIDENCE || i == ROWS {
      if m > 0 {
        assert preds[..m][0] == preds[0];
      }
    } else {
      assert preds[..m][1..] == preds[1..][..m - 1];
      PackedPrefix(preds[1..], m - 1, i + 1);
    }
  }

  /**
   * `Doods.detect_raw` after the request: the matrix starts zeroed and each
   * accepted prediction is written into its row cell by cell.
   */
  method DetectRaw(reply: DoodsReply) returns (r: Result<array2<real>, PyError>)
    ensures r.Success? <==> Packed(reply).Success?
    ensures r.Failure? ==> r.error == Packed(reply).error
    ensures r.Success? ==>
              && fresh(r.value)
              && r.value.Length0 == ROWS && r.value.Length1 == COLUMNS
              && forall i, j :: 0 <= i < ROWS && 0 <= j < COLUMNS ==> r.value[i, j] == Packed(reply).value[i][j]
  {
    var detections := new real[ROWS, COLUMNS]((i, j) => 0.0);
    if reply.RequestFailed? || reply.predictions.None? {
      return Success(detections);
    }
    var preds := reply.predictions.value;
    ghost var written: seq<seq<real>> := [];
    var i := 0;
    assert preds[0..] == preds;
    assert PrependRows(written, PackedRows(preds, 0)) == PackedRows(preds, 0) by {
      if PackedRows(preds, 0).Success? {
        assert [] + PackedRows(preds, 0).value == PackedRows(preds, 0).value;
      }
    }
    while i < |preds|
      invariant 0 <= i <= ROWS && i <= |preds| && |written| == i
      invariant forall k :: 0 <= k < i ==> |written[k]| == COLUMNS
      invariant forall a, b :: 0 <= a < ROWS && 0 <= b < COLUMNS ==>
                  detections[a, b] == if a < i then written[a][b] else 0.0
      invariant PackedRows(preds, 0) == PrependRows(written, PackedRows(preds[i..], i))
    {
      var detection := preds[i];
      if detection.confidence < MIN_CONFIDENCE {
        break;
      }
      if i == ROWS {
        break;
      }
      var err := WriteRow(detections, i, detection);
      if err.Some? {
        assert PackedRows(preds[i..], i) == Failure(err.value);
        return Failure(err.value);
      }
      ghost var row := PackedRow(detection).value;
      StepRows(preds, i, written, row);
      written := written + [row];
      i := i + 1;
    }
    assert PackedRows(preds[i..], i) == Success(ZeroRows(ROWS - i));
    return Success(detections);
  }

  /** Writes one prediction into the zeroed row `i`: the six leading cells, then the embedding from column 6 on. */
  method WriteRow(detections: array2<real>, i: nat, detection: Prediction) returns (err: Option<PyError>)
    requires detections.Length0 == ROWS && detections.Length1 == COLUMNS && i < ROWS
    requires forall b :: 0 <= b < COLUMNS ==> detections[i, b] == 0.0
    modifies detections
    ensures err.None? <==> PackedRow(detection).Success?
    ensures err.Some? ==> PackedRow(detection) == Failure(err.value)
    ensures err.None? ==> forall b :: 0 <= b < COLUMNS ==> detections[i, b] == PackedRow(detection).value[b]
    ensures forall a, b :: 0 <= a < ROWS && a != i && 0 <= b < COLUMNS ==> detections[a, b] == old(detections[a, b])
  {
    detections[i, 0] := 0.0;
    detections[i, 1] := detection.confidence;
    detections[i, 2] := detection.yMin;
    detections[i, 3] := detection.xMin;
    detections[i, 4] := detection.yMax;
    detections[i, 5] := detection.xMax;
    if detection.embeddings.None? {
      return Some(TypeError);
    }
    var embeddings := detection.embeddings.value;
    for g := 0 to |embeddings|
      invariant EMBEDDING_START + g <= COLUMNS
      invariant forall a, b :: 0 <= a < ROWS && a != i && 0 <= b < COLUMNS ==> detections[a, b] == old(detections[a, b])
      invariant forall b :: 0 <= b < COLUMNS ==>
                  detections[i, b] ==
                    if b < EMBEDDING_START then [0.0, detection.confidence, detection.yMin,
                                                 detection.xMin, detection.yMax, detection.xMax][b]
                    else if b < EMBEDDING_START + g then embeddings[b - EMBEDDING_START]
                    else 0.0
    {
      if EMBEDDING_START + g >= COLUMNS {
        return Some(IndexError);
      }
      detections[i, EMBEDDING_START + g] := embeddings[g];
    }
    return None;
  }

  /** One accepted prediction moves its row from the rest of the packing onto `written`. */
  lemma StepRows(preds: seq<Prediction>, i: nat, written: seq<seq<real>>, row: seq<real>)
    requires i < ROWS && i < |preds| && preds[i].confidence >= MIN_CONFIDENCE
    requires PackedRow(preds[i]) == Success(row)
    ensures PrependRows(written, PackedRows(preds[i..], i)) == PrependRows(written + [row], PackedRows(preds[i + 1..], i + 1))
  {
    assert preds[i..][1..] == preds[i + 1..];
    match PackedRows(preds[i + 1..], i + 1)
    case Success(rest) =>
      assert written + [row] + rest == written + ([row] + rest);
    case Failure(e) =>
  }

  /** `written` followed by the rows the rest of the packing produces. */
  function PrependRows(written: seq<seq<real>>, rest: Result<seq<seq<real>>, PyError>): Result<seq<seq<real>>, PyError>
  {
    match rest
    case Success(rows) => Success(written + rows)
    case Failure(e) => Failure(e)
  }
}
