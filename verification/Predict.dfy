/** The prediction endpoint: body, validation, vendor call, log and response, with the feature map
    that the vendor service changes in place and the handler reads again for the log. */
module Predict {
  import opened Text
  import opened Identities
  import opened Float64
  import opened Cents

  /** The dynamic types a feature value can have; `Other` stands for all the rest. */
  datatype Value = Float64(x: real) | Float32(x: real) | Int(n: int) | Int64(n: int) | Other(text: string)

  type Features = map<string, Value>

  /** A Go map is a reference: whoever holds it sees every change. */
  class FeatureMap {
    var entries: Features

    constructor (entries: Features)
      ensures this.entries == entries
    {
      this.entries := entries;
    }
  }

  // ---- ensureDecimal ----

  /** The comparison `v == float64(int64(v))`. */
  predicate Whole(x: real) {
    x == ToInt64(x) as real
  }

  function WithDecimals(v: Value): Value {
    match v
    case Float64(x) => if Whole(x) then Float64(PlusCent(ToInt64(x))) else v
    case Int(n) => Float64(PlusCent(Rounded(n)))
    case Int64(n) => Float64(PlusCent(Rounded(n)))
    case Float32(x) => if Whole(x) then Float64(PlusCent(ToInt64(x))) else Float64(x)
    case Other(_) => v
  }

  function Adjusted(f: Features): Features {
    if "amount" in f then f["amount" := WithDecimals(f["amount"])] else f
  }

  method EnsureDecimal(features: FeatureMap)
    modifies features
    ensures features.entries == Adjusted(old(features.entries))
  {
    if "amount" in features.entries {
      match features.entries["amount"]
      case Float64(x) =>
        if Whole(x) {
          features.entries := features.entries["amount" := Float64(PlusCent(ToInt64(x)))];
        }
      case Int(n) => features.entries := features.entries["amount" := Float64(PlusCent(Rounded(n)))];
      case Int64(n) => features.entries := features.entries["amount" := Float64(PlusCent(Rounded(n)))];
      case Float32(x) =>
        if Whole(x) {
          features.entries := features.entries["amount" := Float64(PlusCent(ToInt64(x)))];
        } else {
          features.entries := features.entries["amount" := Float64(x)];
        }
      case Other(_) =>
    }
  }

  predicate Fractional(x: real) {
    x != x.Floor as real
  }

  /** The number that `float64(v)` is. */
  function Numeric(v: Value): real
    requires !v.Other?
  {
    if v.Int? || v.Int64? then Rounded(v.n) as real else v.x
  }

  /** The values there are: a whole float64 has 53 significant bits. */
  ghost predicate Representable(v: Value) {
    (v.Float64? || v.Float32?) && !Fractional(v.x) ==> IsFloat64(Abs(v.x.Floor))
  }

  lemma ScaledFraction(s: int)
    ensures Fractional(s as real / SCALE as real) <==> s % SCALE != 0
    ensures s % SCALE == 0 ==> s as real / SCALE as real == (s / SCALE) as real
  {
    var q, r, x := s / SCALE, s % SCALE, s as real / SCALE as real;
    assert s == q * SCALE + r;
    assert x == q as real + r as real / SCALE as real;
    assert x.Floor == q;
  }

  lemma WholeIffNotFractional(x: real)
    requires -TWO_63 <= x.Floor < TWO_63
    ensures Whole(x) <==> !Fractional(x)
    ensures Whole(x) ==> ToInt64(x) == x.Floor
  {
  }

  lemma NumericIsFloat64(v: Value)
    requires !v.Other? && Representable(v) && !Fractional(Numeric(v))
    ensures IsFloat64(Abs(Numeric(v).Floor))
  {
    if v.Int? || v.Int64? {
      NearestIsFloat64(Abs(v.n));
    }
  }

  /** What the sum of a whole amount and a cent is, as a number. */
  lemma PlusCentValue(n: int)
    requires IsFloat64(Abs(n))
    ensures Fractional(PlusCent(n)) <==> -TWO_47 <= n < TWO_47
    ensures !Fractional(PlusCent(n)) ==> PlusCent(n) == n as real
    ensures n as real <= PlusCent(n) < n as real + 1.0 / 32.0
  {
    PlusCentIff(n);
    ScaledFraction(ScaledSum(n));
    var s := ScaledSum(n);
    assert (n * SCALE) as real == n as real * SCALE as real;
    assert PlusCent(n) * SCALE as real == s as real;
  }

  /** The amount that is sent has a fractional part exactly if it had one or is whole and lies from
      -2^47 up to 2^47; it is never lower than it was, nor higher by more than a thirty-second. */
  lemma DecimalIff(v: Value)
    requires !v.Other? && Representable(v)
    ensures
      var x, y := Numeric(v), WithDecimals(v);
      && y.Float64? && Representable(y)
      && (Fractional(y.x) <==> Fractional(x) || -TWO_47 as real <= x < TWO_47 as real)
      && (!Fractional(y.x) || Fractional(x) ==> y.x == x)
      && x <= y.x < x + 1.0 / 32.0
  {
    var x := Numeric(v);
    if !Fractional(x) {
      NumericIsFloat64(v);
      PlusCentValue(x.Floor);
    }
    if -TWO_63 <= x.Floor < TWO_63 {
      WholeIffNotFractional(x);
    }
  }

  lemma AdjustedElsewhere(f: Features)
    ensures Adjusted(f).Keys == f.Keys
    ensures forall k | k in f && k != "amount" :: Adjusted(f)[k] == f[k]
  {
  }

  /** A second pass changes nothing. */
  lemma AdjustedOnce(f: Features)
    requires "amount" in f ==> Representable(f["amount"])
    ensures Adjusted(Adjusted(f)) == Adjusted(f)
  {
    if "amount" in f && !f["amount"].Other? {
      var v := f["amount"];
      DecimalIff(v);
      DecimalIff(WithDecimals(v));
    }
  }

  // ---- maskSensitiveData ----

  const REDACTED: Value := Other("[REDACTED]")

  predicate Sensitive(key: string) {
    var l := Lower(key);
    Contains(l, "name") || Contains(l, "email") || Contains(l, "phone") || Contains(l, "password")
  }

  function Mask(f: Features): Features {
    map k | k in f :: if Sensitive(k) then REDACTED else f[k]
  }

  method MaskSensitiveData(data: Features) returns (masked: Features)
    ensures masked == Mask(data)
  {
    masked := map[];
    var todo := data.Keys;
    while todo != {}
      invariant todo <= data.Keys
      invariant masked.Keys == data.Keys - todo
      invariant forall k | k in masked :: masked[k] == if Sensitive(k) then REDACTED else data[k]
      decreases |todo|
    {
      var k :| k in todo;
      masked := masked[k := if Sensitive(k) then REDACTED else data[k]];
      todo := todo - {k};
    }
  }

  lemma LowerOfParts(a: string, w: string, b: string)
    ensures Lower(a + w + b) == Lower(a) + Lower(w) + Lower(b)
  {
  }

  lemma OccursInLower(key: string, w: string)
    ensures Contains(Lower(key), w) <==> exists a: string, x: string, b: string :: key == a + x + b && Lower(x) == w
  {
    if i: int :| 0 <= i <= |Lower(key)| - |w| && OccursAt(Lower(key), w, i) {
      var a, x, b := key[..i], key[i..i + |w|], key[i + |w|..];
      assert key == a + x + b;
      assert Lower(x) == Lower(key)[i..i + |w|];
    }
    if a: string, x: string, b: string :| key == a + x + b && Lower(x) == w {
      LowerOfParts(a, x, b);
      assert OccursAt(Lower(key), w, |a|);
    }
  }

  /** A key is masked exactly if "name", "email", "phone" or "password" occurs in it in any mixture of
      cases; the value is then the placeholder, and else what it was. */
  lemma MaskedIff(data: Features, key: string)
    requires key in data
    ensures
      var sensitive := exists a: string, x: string, b: string :: key == a + x + b
                         && (Lower(x) == "name" || Lower(x) == "email" || Lower(x) == "phone" || Lower(x) == "password");
      key in Mask(data) && Mask(data)[key] == if sensitive then Other("[REDACTED]") else data[key]
  {
    OccursInLower(key, "name");
    OccursInLower(key, "email");
    OccursInLower(key, "phone");
    OccursInLower(key, "password");
  }

  lemma NoLetterNoWord(s: string, w: string, c: char)
    requires c in w && c !in s
    ensures !Contains(s, w)
  {
    forall i | 0 <= i <= |s| - |w| ensures !OccursAt(s, w, i) {
      var j :| 0 <= j < |w| && w[j] == c;
      assert s[i..i + |w|][j] == s[i + j];
    }
  }

  lemma LowerKeeps(s: string)
    requires forall i | 0 <= i < |s| :: 'a' <= s[i] <= 'z' || s[i] == '_'
    ensures Lower(s) == s
  {
  }

  /** None of the four feature names is sensitive. */
  lemma FeatureNamesArePlain()
    ensures !Sensitive("transaction_id") && !Sensitive("amount")
    ensures !Sensitive("merchant_type") && !Sensitive("device_type")
  {
    PlainTransactionId();
    PlainAmount();
    PlainMerchantType();
    PlainDeviceType();
  }

  lemma PlainTransactionId()
    ensures !Sensitive("transaction_id")
  {
    var s := "transaction_id";
    LowerKeeps(s);
    NoLetterNoWord(s, "name", "name"[2]);
    NoLetterNoWord(s, "email", "email"[1]);
    NoLetterNoWord(s, "phone", "phone"[0]);
    NoLetterNoWord(s, "password", "password"[0]);
  }

  lemma PlainAmount()
    ensures !Sensitive("amount")
  {
    var s := "amount";
    LowerKeeps(s);
    NoLetterNoWord(s, "name", "name"[3]);
    NoLetterNoWord(s, "email", "email"[0]);
    NoLetterNoWord(s, "phone", "phone"[0]);
    NoLetterNoWord(s, "password", "password"[0]);
  }

  lemma PlainMerchantType()
    ensures !Sensitive("merchant_type")
  {
    var s := "merchant_type";
    LowerKeeps(s);
    forall i | 0 <= i <= |s| - 4 ensures !OccursAt(s, "name", i) {
      assert s[i..i + 4][2] == s[i + 2];
    }
    NoLetterNoWord(s, "email", "email"[4]);
    NoLetterNoWord(s, "phone", "phone"[2]);
    NoLetterNoWord(s, "password", "password"[2]);
  }

  lemma PlainDeviceType()
    ensures !Sensitive("device_type")
  {
    var s := "device_type";
    LowerKeeps(s);
    NoLetterNoWord(s, "name", "name"[0]);
    NoLetterNoWord(s, "email", "email"[1]);
    NoLetterNoWord(s, "phone", "phone"[1]);
    NoLetterNoWord(s, "password", "password"[2]);
  }

  // ---- the handler ----

  datatype PredictRequest = PredictRequest(
    model: string, transactionId: int, amount: real, merchantType: string, deviceType: string)

  /** Reading the body, at most a megabyte of it, and decoding it. */
  datatype Body =
    | TooLarge
    | Unreadable(partial: string)
    | Content(bytes: string, decoded: Option<PredictRequest>)

  /** The validator's tags: everything required, the model one of three. */
  predicate Acceptable(q: PredictRequest) {
    && q.model in {"logreg", "lightgbm", "xgboost"}
    && q.transactionId != 0 && q.amount != 0.0 && q.merchantType != "" && q.deviceType != ""
  }

  function FeaturesOf(q: PredictRequest): Features {
    map["transaction_id" := Int64(q.transactionId), "amount" := Float64(q.amount),
        "merchant_type" := Other(q.merchantType), "device_type" := Other(q.deviceType)]
  }

  datatype Prediction = Prediction(modelName: string, runId: string, requestId: string, timestamp: string,
                                   latencyMs: real, prediction: int, score: real, threshold: real)

  /** What the validator's tags ask for: one of three models, and no field missing or zero. */
  ghost predicate Valid(i: Input) {
    && i.identity.Some? && i.body.Content? && i.body.decoded.Some?
    && var q := i.body.decoded.value;
       && (q.model == "logreg" || q.model == "lightgbm" || q.model == "xgboost")
       && q.transactionId != 0 && q.amount != 0.0 && |q.merchantType| > 0 && |q.deviceType| > 0
  }

  /** The call carries the request, field by field; the amount as `DecimalIff` has it. */
  ghost predicate CallCarries(call: VendorCall, q: PredictRequest) {
    && call.model == q.model
    && call.features.Keys == {"transaction_id", "amount", "merchant_type", "device_type"}
    && call.features["transaction_id"] == Int64(q.transactionId)
    && call.features["merchant_type"] == Other(q.merchantType)
    && call.features["device_type"] == Other(q.deviceType)
    && call.features["amount"].Float64?
    && (Fractional(q.amount) ==> call.features["amount"].x == q.amount)
    && (Representable(Float64(q.amount)) ==>
          var y := call.features["amount"].x;
          && (Fractional(y) <==> Fractional(q.amount) || -TWO_47 as real <= q.amount < TWO_47 as real)
          && (!Fractional(y) ==> y == q.amount)
          && q.amount <= y < q.amount + 1.0 / 32.0)
  }

  datatype VendorAnswer = Predicted(value: Prediction) | VendorError(text: string)

  datatype VendorCall = VendorCall(model: string, features: Features)

  /** The request as it is put into the log: nothing, the raw body, or the marshalled request. */
  datatype Payload = Nothing | Raw(bytes: string) | Marshalled(model: string, features: Features)

  datatype LogRow = LogRow(
    user: int, apiKey: Option<int>, request: Payload, response: Option<Prediction>, error: Option<string>,
    requestTime: int, responseTime: int)

  datatype Response = Answer(status: int, value: Prediction) | Refusal(status: int, text: string)

  /** One request at the handler with what its surroundings will answer. `complaint` is the text
      the validator's error is rendered to. */
  datatype Input = Input(
    identity: Option<Identity>, body: Body, complaint: string, vendor: VendorAnswer,
    requestTime: int, responseTime: int)

  class PredictServer {
    var log: seq<LogRow>
    var vendorCalls: seq<VendorCall>

    constructor ()
      ensures log == [] && vendorCalls == []
    {
      log, vendorCalls := [], [];
    }

    /** The vendor service: it adjusts the caller's map in place before sending it. */
    method Predict(model: string, features: FeatureMap, vendor: VendorAnswer) returns (answer: VendorAnswer)
      modifies this`vendorCalls, features
      ensures features.entries == Adjusted(old(features.entries))
      ensures vendorCalls == old(vendorCalls) + [VendorCall(model, features.entries)]
      ensures answer == vendor
    {
      EnsureDecimal(features);
      vendorCalls := vendorCalls + [VendorCall(model, features.entries)];
      answer := vendor;
    }

    method SaveInferenceLog(
        id: Identity, request: Payload, response: Option<Prediction>, errMsg: string, t0: int, t1: int)
      modifies this`log
      ensures log == old(log) + [LogRow(id.user, id.apiKey, request, response,
                                        if errMsg != "" then Some(errMsg) else None, t0, t1)]
    {
      var error: Option<string> := None;
      if errMsg != "" {
        error := Some(errMsg);
      }
      log := log + [LogRow(id.user, id.apiKey, request, response, error, t0, t1)];
    }

    method PredictHandler(i: Input) returns (r: Response)
      modifies this
      ensures log == old(log) + LogOf(i)
      ensures vendorCalls == old(vendorCalls) + CallsOf(i)
      ensures r == ResponseTo(i)
      ensures !Valid(i) ==> vendorCalls == old(vendorCalls)
      ensures Valid(i) ==> |vendorCalls| == |old(vendorCalls)| + 1
                           && vendorCalls[..|old(vendorCalls)|] == old(vendorCalls)
                           && CallCarries(vendorCalls[|old(vendorCalls)|], i.body.decoded.value)
      ensures i.identity.None? ==> log == old(log)
      ensures i.identity.Some? ==> |log| == |old(log)| + 1 && log[..|old(log)|] == old(log)
                                   && RowTells(log[|old(log)|], i)
    {
      CallTells(i);
      LogTells(i);
      if i.identity.None? {
        return Refusal(401, "unauthorized");
      }
      var id, t0, t1 := i.identity.value, i.requestTime, i.responseTime;
      match i.body
      case TooLarge =>
        SaveInferenceLog(id, Nothing, None, "payload too large", t0, t1);
        return Refusal(413, "payload too large");
      case Unreadable(partial) =>
        SaveInferenceLog(id, Raw(partial), None, "invalid request body", t0, t1);
        return Refusal(400, "invalid request body");
      case Content(bytes, None) =>
        SaveInferenceLog(id, Raw(bytes), None, "invalid request body", t0, t1);
        return Refusal(400, "invalid request body");
      case Content(_, Some(q)) =>
        var features := new FeatureMap(FeaturesOf(q));
        if !Acceptable(q) {
          var masked := MaskSensitiveData(features.entries);
          SaveInferenceLog(id, Marshalled(q.model, masked), None, "validation failed: " + i.complaint, t0, t1);
          return Refusal(400, "validation failed: " + i.complaint);
        }
        var answer := Predict(q.model, features, i.vendor);
        var masked := MaskSensitiveData(features.entries);
        var value: Option<Prediction> := None;
        var errMsg := "";
        if answer.Predicted? {
          value := Some(answer.value);
        } else {
          errMsg := answer.text;
        }
        SaveInferenceLog(id, Marshalled(q.model, masked), value, errMsg, t0, t1);
        if answer.VendorError? {
          return Refusal(502, answer.text);
        }
        r := Answer(200, answer.value);
    }

    /** Any number of requests, one after the other. */
    method ServeAll(inputs: seq<Input>) returns (responses: seq<Response>)
      modifies this
      ensures log == old(log) + AllLogs(inputs)
      ensures vendorCalls == old(vendorCalls) + AllCalls(inputs)
      ensures responses == AllResponses(inputs)
      decreases |inputs|
    {
      responses := [];
      if inputs != [] {
        var r := PredictHandler(inputs[0]);
        ghost var logged, called := log, vendorCalls;
        responses := ServeAll(inputs[1..]);
        Joined(old(log), LogOf(inputs[0]), AllLogs(inputs[1..]), logged, log, AllLogs(inputs));
        Joined(old(vendorCalls), CallsOf(inputs[0]), AllCalls(inputs[1..]), called, vendorCalls, AllCalls(inputs));
        responses := [r] + responses;
      }
    }
  }

  // ---- what one request does, as a function ----

  /** The request that gets as far as the vendor. */
  function Sent(i: Input): Option<PredictRequest> {
    if i.identity.Some? && i.body.Content? && i.body.decoded.Some? && Acceptable(i.body.decoded.value)
    then i.body.decoded else None
  }

  function CallsOf(i: Input): seq<VendorCall> {
    if Sent(i).Some? then [VendorCall(Sent(i).value.model, Adjusted(FeaturesOf(Sent(i).value)))] else []
  }

  function ErrorText(i: Input): string {
    match i.body
    case TooLarge => "payload too large"
    case Unreadable(_) => "invalid request body"
    case Content(_, None) => "invalid request body"
    case Content(_, Some(q)) =>
      if !Acceptable(q) then "validation failed: " + i.complaint
      else if i.vendor.VendorError? then i.vendor.text
      else ""
  }

  function RequestPayload(i: Input): Payload {
    match i.body
    case TooLarge => Nothing
    case Unreadable(partial) => Raw(partial)
    case Content(bytes, None) => Raw(bytes)
    case Content(_, Some(q)) =>
      Marshalled(q.model, Mask(if Acceptable(q) then Adjusted(FeaturesOf(q)) else FeaturesOf(q)))
  }

  function LogOf(i: Input): seq<LogRow> {
    if i.identity.None? then []
    else
      [LogRow(i.identity.value.user, i.identity.value.apiKey, RequestPayload(i),
              if Sent(i).Some? && i.vendor.Predicted? then Some(i.vendor.value) else None,
              if ErrorText(i) != "" then Some(ErrorText(i)) else None,
              i.requestTime, i.responseTime)]
  }

  function ResponseTo(i: Input): Response {
    if i.identity.None? then Refusal(401, "unauthorized")
    else
      match i.body
      case TooLarge => Refusal(413, ErrorText(i))
      case Unreadable(_) => Refusal(400, ErrorText(i))
      case Content(_, None) => Refusal(400, ErrorText(i))
      case Content(_, Some(q)) =>
        if !Acceptable(q) then Refusal(400, ErrorText(i))
        else if i.vendor.VendorError? then Refusal(502, ErrorText(i))
        else Answer(200, i.vendor.value)
  }

  /** A call is made exactly for a valid request, one, and it carries the request. */
  lemma CallTells(i: Input)
    ensures !Valid(i) ==> CallsOf(i) == []
    ensures Valid(i) ==> |CallsOf(i)| == 1 && CallCarries(CallsOf(i)[0], i.body.decoded.value)
  {
    if Valid(i) {
      var q := i.body.decoded.value;
      AmountSent(q.amount);
      AdjustedElsewhere(FeaturesOf(q));
      assert FeaturesOf(q).Keys == {"transaction_id", "amount", "merchant_type", "device_type"};
    }
  }

  lemma AmountSent(x: real)
    ensures WithDecimals(Float64(x)).Float64?
    ensures Fractional(x) ==> WithDecimals(Float64(x)).x == x
    ensures Representable(Float64(x)) ==>
              var y := WithDecimals(Float64(x)).x;
              && (Fractional(y) <==> Fractional(x) || -TWO_47 as real <= x < TWO_47 as real)
              && (!Fractional(y) ==> y == x)
              && x <= y < x + 1.0 / 32.0
  {
    if Representable(Float64(x)) {
      DecimalIff(Float64(x));
    }
  }

  /** The row names the caller and the times, and holds as request: nothing for a body that was too
      large, the bytes of one that was not decoded, else model and features as they stand. */
  ghost predicate RowTells(row: LogRow, i: Input)
    requires i.identity.Some?
  {
    && row.user == i.identity.value.user && row.apiKey == i.identity.value.apiKey
    && row.requestTime == i.requestTime && row.responseTime == i.responseTime
    && match i.body
       case TooLarge => row.request == Nothing
       case Unreadable(partial) => row.request == Raw(partial)
       case Content(bytes, None) => row.request == Raw(bytes)
       case Content(_, Some(q)) =>
         && row.request.Marshalled?
         && if Valid(i) then CallCarries(VendorCall(row.request.model, row.request.features), q)
            else row.request == Marshalled(q.model, map["transaction_id" := Int64(q.transactionId),
                   "amount" := Float64(q.amount), "merchant_type" := Other(q.merchantType),
                   "device_type" := Other(q.deviceType)])
  }

  lemma LogTells(i: Input)
    ensures i.identity.None? ==> LogOf(i) == []
    ensures i.identity.Some? ==> |LogOf(i)| == 1 && RowTells(LogOf(i)[0], i)
  {
    if i.identity.Some? && i.body.Content? && i.body.decoded.Some? {
      if Valid(i) {
        LogShowsWhatWasSent(i);
        CallTells(i);
      } else {
        MaskLeavesFeatures(i.body.decoded.value);
      }
    }
  }

  lemma MaskLeavesFeatures(q: PredictRequest)
    ensures Mask(FeaturesOf(q)) == FeaturesOf(q)
  {
    FeatureNamesArePlain();
  }

  /** The answer, by cases. */
  lemma StatusTells(i: Input)
    ensures
      var r := ResponseTo(i);
      && (i.identity.None? ==> r == Refusal(401, "unauthorized"))
      && (i.identity.Some? && i.body.TooLarge? ==> r == Refusal(413, "payload too large"))
      && (i.identity.Some? && (i.body.Unreadable? || (i.body.Content? && i.body.decoded.None?)) ==>
            r == Refusal(400, "invalid request body"))
      && (i.identity.Some? && i.body.Content? && i.body.decoded.Some? && !Valid(i) ==>
            r == Refusal(400, "validation failed: " + i.complaint))
      && (Valid(i) && i.vendor.VendorError? ==> r == Refusal(502, i.vendor.text))
      && (Valid(i) && i.vendor.Predicted? ==> r == Answer(200, i.vendor.value))
  {
  }

  /** The log holds a response exactly for status 200 and an error exactly otherwise. */
  lemma LogMatchesStatus(i: Input)
    requires i.identity.Some? && (i.vendor.VendorError? ==> i.vendor.text != "")
    ensures |LogOf(i)| == 1
    ensures
      var row, r := LogOf(i)[0], ResponseTo(i);
      && (row.response.Some? <==> r.status == 200)
      && (row.error.Some? <==> r.status != 200)
      && (r.Answer? ==> row.response == Some(r.value))
      && (r.Refusal? ==> row.error == Some(r.text))
  {
    assert ErrorText(i) == "" <==> Sent(i).Some? && i.vendor.Predicted?;
  }

  lemma MaskKeepsFeatures(q: PredictRequest)
    ensures Mask(Adjusted(FeaturesOf(q))) == Adjusted(FeaturesOf(q))
  {
    FeatureNamesArePlain();
    AdjustedElsewhere(FeaturesOf(q));
  }

  /** The aliased map: after a vendor call the logged features are those that were sent, adjusted
      amount included, and masking has nothing to hide in them. */
  lemma LogShowsWhatWasSent(i: Input)
    requires Sent(i).Some?
    ensures |CallsOf(i)| == 1 && |LogOf(i)| == 1
    ensures LogOf(i)[0].request == Marshalled(CallsOf(i)[0].model, CallsOf(i)[0].features)
  {
    MaskKeepsFeatures(Sent(i).value);
  }

  // ---- whole runs ----

  function WithIdentity(inputs: seq<Input>): nat {
    if inputs == [] then 0 else WithIdentity(inputs[1..]) + if inputs[0].identity.Some? then 1 else 0
  }

  function AllLogs(inputs: seq<Input>): seq<LogRow> {
    if inputs == [] then [] else LogOf(inputs[0]) + AllLogs(inputs[1..])
  }

  function AllCalls(inputs: seq<Input>): seq<VendorCall> {
    if inputs == [] then [] else CallsOf(inputs[0]) + AllCalls(inputs[1..])
  }

  function AllResponses(inputs: seq<Input>): seq<Response> {
    if inputs == [] then [] else [ResponseTo(inputs[0])] + AllResponses(inputs[1..])
  }

  lemma Joined<T>(l0: seq<T>, x: seq<T>, rest: seq<T>, l1: seq<T>, l2: seq<T>, all: seq<T>)
    requires l1 == l0 + x && l2 == l1 + rest && all == x + rest
    ensures l2 == l0 + all
  {
  }

  /** Exactly one log attempt per request with an identity, and never more vendor calls than that. */
  lemma {:induction false} OneLogPerRequest(inputs: seq<Input>)
    ensures |AllLogs(inputs)| == WithIdentity(inputs)
    ensures |AllCalls(inputs)| <= |AllLogs(inputs)|
  {
    if inputs != [] {
      OneLogPerRequest(inputs[1..]);
    }
  }

  // ---- which rows the table takes ----

  /** PostgreSQL stores no NUL characters, neither in text nor escaped in JSONB. */
  predicate NoNul(s: string) {
    '\0' !in s
  }

  predicate NoNulIn(v: Value) {
    v.Other? ==> NoNul(v.text)
  }

  /** The database at the moment a row is written: which texts are JSONB, which users and which API
      keys there are. */
  datatype Database = Database(jsonb: string -> bool, users: set<int>, keys: set<int>)

  /** The columns of `inference_logs`: the request must be JSONB and not null, the response JSONB or
      null, the error text or null; the user must exist, and so must the API key if one is named. */
  predicate Storable(db: Database, row: LogRow) {
    && (match row.request
        case Nothing => false
        case Raw(bytes) => db.jsonb(bytes)
        case Marshalled(model, features) => NoNul(model) && forall k | k in features :: NoNulIn(features[k]))
    && (row.response.Some? ==> PlainPrediction(row.response.value))
    && (row.error.Some? ==> NoNul(row.error.value))
    && row.user in db.users
    && (row.apiKey.Some? ==> row.apiKey.value in db.keys)
  }

  /** A NUL anywhere keeps the row out. */
  lemma NulIsRefused(db: Database, row: LogRow)
    requires
      || (row.request.Marshalled? && '\0' in row.request.model)
      || (row.request.Marshalled? && exists k | k in row.request.features ::
            row.request.features[k].Other? && '\0' in row.request.features[k].text)
      || (row.response.Some? && '\0' in row.response.value.modelName + row.response.value.runId
                                        + row.response.value.requestId + row.response.value.timestamp)
      || (row.error.Some? && '\0' in row.error.value)
    ensures !Storable(db, row)
  {
    if row.response.Some? {
      var p := row.response.value;
      var all := p.modelName + p.runId + p.requestId + p.timestamp;
      assert '\0' in all <==>
          '\0' in p.modelName || '\0' in p.runId || '\0' in p.requestId || '\0' in p.timestamp;
    }
  }

  predicate PlainPrediction(p: Prediction) {
    NoNul(p.modelName) && NoNul(p.runId) && NoNul(p.requestId) && NoNul(p.timestamp)
  }

  /** The caller still exists, and so does the key the caller used. */
  predicate Current(db: Database, id: Identity) {
    id.user in db.users && (id.apiKey.Some? ==> id.apiKey.value in db.keys)
  }

  predicate PlainBody(db: Database, i: Input) {
    match i.body
    case TooLarge => false
    case Unreadable(partial) => db.jsonb(partial)
    case Content(bytes, None) => db.jsonb(bytes)
    case Content(_, Some(q)) =>
      && NoNul(q.model) && NoNul(q.merchantType) && NoNul(q.deviceType)
      && if !Acceptable(q) then NoNul(i.complaint)
         else if i.vendor.VendorError? then NoNul(i.vendor.text)
         else PlainPrediction(i.vendor.value)
  }

  predicate Loggable(db: Database, i: Input)
    requires i.identity.Some?
  {
    PlainBody(db, i) && Current(db, i.identity.value)
  }

  /** The log row of a request can be stored exactly if its body is JSON that JSONB takes, the texts
      beside it are free of NUL, and its user and API key still exist: so never for a body that is
      too large, for one that does not decode only if it is JSON of another shape, and not for a key
      that has been deleted since. */
  lemma StorableIff(db: Database, i: Input)
    requires i.identity.Some?
    ensures Storable(db, LogOf(i)[0]) <==> Loggable(db, i)
  {
    if i.body.Content? && i.body.decoded.Some? {
      var q := i.body.decoded.value;
      FeatureNamesArePlain();
      PayloadTexts(q, if Acceptable(q) then Adjusted(FeaturesOf(q)) else FeaturesOf(q));
      if !Acceptable(q) {
        PrefixedText("validation failed: ", i.complaint);
      }
    }
  }

  lemma PayloadTexts(q: PredictRequest, f: Features)
    requires f == FeaturesOf(q) || f == Adjusted(FeaturesOf(q))
    requires !Sensitive("merchant_type") && !Sensitive("device_type")
    ensures (forall k | k in Mask(f) :: NoNulIn(Mask(f)[k])) <==> NoNul(q.merchantType) && NoNul(q.deviceType)
  {
    var m := Mask(f);
    assert m["merchant_type"] == Other(q.merchantType) && m["device_type"] == Other(q.deviceType);
    assert NoNul("[REDACTED]");
  }

  lemma PrefixedText(a: string, b: string)
    ensures NoNul(a + b) <==> NoNul(a) && NoNul(b)
  {
  }

  /** The rows that a run leaves in the table; `dbs[j]` is the database when request `j` is logged. */
  function StoredRows(dbs: seq<Database>, inputs: seq<Input>): seq<LogRow>
    requires |dbs| == |inputs|
  {
    if inputs == [] then [] else StoredOf(dbs[0], LogOf(inputs[0])) + StoredRows(dbs[1..], inputs[1..])
  }

  function StoredOf(db: Database, rows: seq<LogRow>): seq<LogRow> {
    if rows == [] then []
    else (if Storable(db, rows[0]) then [rows[0]] else []) + StoredOf(db, rows[1..])
  }

  lemma FirstStored(db: Database, i: Input)
    ensures |StoredOf(db, LogOf(i))| == if i.identity.Some? && Loggable(db, i) then 1 else 0
  {
    if i.identity.Some? {
      StorableIff(db, i);
      var row := LogOf(i)[0];
      assert LogOf(i) == [row] && [row][1..] == [];
    }
  }

  ghost predicate AllLoggable(dbs: seq<Database>, inputs: seq<Input>)
    requires |dbs| == |inputs|
  {
    forall j | 0 <= j < |inputs| && inputs[j].identity.Some? :: Loggable(dbs[j], inputs[j])
  }

  lemma AllLoggableSplits(dbs: seq<Database>, inputs: seq<Input>)
    requires |dbs| == |inputs| && inputs != []
    ensures AllLoggable(dbs, inputs) <==>
              AllLoggable(dbs[1..], inputs[1..])
              && (inputs[0].identity.Some? ==> Loggable(dbs[0], inputs[0]))
  {
    if AllLoggable(dbs[1..], inputs[1..]) {
      forall j | 0 < j < |inputs| && inputs[j].identity.Some? ensures Loggable(dbs[j], inputs[j]) {
        assert inputs[1..][j - 1] == inputs[j] && dbs[1..][j - 1] == dbs[j];
      }
    }
  }

  /** A run leaves one stored row per request with an identity exactly if all of them are loggable. */
  lemma {:induction false} NothingLostIff(dbs: seq<Database>, inputs: seq<Input>)
    requires |dbs| == |inputs|
    ensures |StoredRows(dbs, inputs)| <= WithIdentity(inputs)
    ensures |StoredRows(dbs, inputs)| == WithIdentity(inputs) <==> AllLoggable(dbs, inputs)
  {
    if inputs != [] {
      NothingLostIff(dbs[1..], inputs[1..]);
      AllLoggableSplits(dbs, inputs);
      FirstStored(dbs[0], inputs[0]);
    }
  }

  /** A body over a megabyte leaves no trace in the table, whatever counts as JSON. */
  lemma TooLargeIsNeverStored(db: Database, i: Input)
    requires i.identity.Some? && i.body == TooLarge
    ensures ResponseTo(i).status == 413 && |LogOf(i)| == 1 && StoredOf(db, LogOf(i)) == []
  {
    FirstStored(db, i);
  }
}
