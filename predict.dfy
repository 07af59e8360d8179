/** The post-processing of `predict_prices`
    (car_price_prediction_ml/src/predict.py): the guard on the request and the
    clamping of the model's predictions to non-negative prices. The trained
    pipeline is loaded from disk and is opaque, so it is a parameter. */
module Predict {
  import opened Frames

  /** One car as the caller sends it: attribute name to value. */
  type Car = map<string, Cell>

  /** An element of the request list: a car record, or any other value. The
      guard does not look inside the list, so both kinds reach the model. */
  datatype Item = Record(fields: Car) | NotARecord

  /** What the caller passes: a list, or something that is not a list. */
  datatype Payload = Cars(cars: seq<Item>) | NotAList

  datatype PredictError = ValueError(message: string)

  /** The trained pipeline's `predict`, one raw price per row of the frame
      built from the cars. */
  type Predictor = seq<Item> -> seq<real>

  const Rejected: string := "cars must be a non-empty list of dictionaries"

  /** The guard: only a non-empty list of cars is accepted. */
  predicate Accepted(p: Payload) {
    p.Cars? && p.cars != []
  }

  /** `np.maximum(x, 0.0)` on one prediction. */
  function ClampOne(x: real): (r: real)
    ensures r >= 0.0 && r >= x
    ensures r == x || r == 0.0
  {
    if x < 0.0 then 0.0 else x
  }

  /** `np.maximum(predictions, 0.0).tolist()`: every prediction, in order,
      with the negative ones raised to zero. */
  function Clamp(predictions: seq<real>): (r: seq<real>)
    ensures |r| == |predictions|
    ensures forall i :: 0 <= i < |r| ==> r[i] >= 0.0
    ensures forall i :: 0 <= i < |r| ==> r[i] == ClampOne(predictions[i])
  {
    seq(|predictions|, i requires 0 <= i < |predictions| => ClampOne(predictions[i]))
  }

  /** `predict_prices`: a request that is not a non-empty list raises
      `ValueError`; otherwise the model's predictions, clamped. */
  function PredictPrices(payload: Payload, model: Predictor): (r: Result<seq<real>, PredictError>)
    ensures r.Err? <==> !Accepted(payload)
    ensures r.Err? ==> r.error == ValueError(Rejected)
    ensures r.Ok? ==> |r.value| == |model(payload.cars)|
    ensures r.Ok? ==> forall i :: 0 <= i < |r.value| ==> r.value[i] >= 0.0
  {
    if !Accepted(payload) then Err(ValueError(Rejected))
    else Ok(Clamp(model(payload.cars)))
  }

  /** A prediction that is already a valid price is returned as it is; a
      negative one becomes exactly zero. */
  lemma ClampPointwise(predictions: seq<real>, i: nat)
    requires i < |predictions|
    ensures predictions[i] >= 0.0 ==> Clamp(predictions)[i] == predictions[i]
    ensures predictions[i] < 0.0 ==> Clamp(predictions)[i] == 0.0
  {
  }

  /** Non-negative predictions pass through the clamp untouched. */
  lemma ClampKeepsPrices(predictions: seq<real>)
    requires forall i :: 0 <= i < |predictions| ==> predictions[i] >= 0.0
    ensures Clamp(predictions) == predictions
  {
  }

  /** Clamping twice is clamping once. */
  lemma ClampIdempotent(predictions: seq<real>)
    ensures Clamp(Clamp(predictions)) == Clamp(predictions)
  {
    ClampKeepsPrices(Clamp(predictions));
  }

  /** The clamp works element by element: it commutes with concatenation, so
      each car's price depends only on that car's prediction. */
  lemma ClampAppend(a: seq<real>, b: seq<real>)
    ensures Clamp(a + b) == Clamp(a) + Clamp(b)
  {
  }

  /** Every accepted request yields exactly the clamped predictions, and its
      prices are the model's wherever the model predicts a non-negative price. */
  lemma AcceptedRequest(cars: seq<Item>, model: Predictor)
    requires cars != []
    ensures PredictPrices(Cars(cars), model) == Ok(Clamp(model(cars)))
    ensures forall i :: 0 <= i < |model(cars)| && model(cars)[i] >= 0.0 ==>
      PredictPrices(Cars(cars), model).value[i] == model(cars)[i]
  {
  }

  /** The guard checks only that the request is a non-empty list: a list
      holding no car record at all is accepted and handed to the model. */
  lemma NonRecordsPass(n: nat, model: Predictor)
    requires n > 0
    ensures PredictPrices(Cars(seq(n, i => NotARecord)), model).Ok?
  {
    assert seq(n, i => NotARecord)[0] == NotARecord;
  }
}
