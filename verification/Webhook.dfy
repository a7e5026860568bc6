/** The inbound signal and the checks it passes before a trade exists
    (app/schemas/webhook.py, TradingService.validate_signal). */
module Webhook {
  import opened Wrappers
  import opened Decimals
  import opened Models
  import opened Numbers

  datatype Payload = Payload(signalId: string, symbol: string, action: OrderSide, quantity: Decimal)

  datatype QuantityError = InfiniteOrNaN | NotPositive | TooManyPlaces

  /** The `quantity` field: greater than zero, finite, at most 12 decimal places. */
  function ValidateQuantity(quantity: Decimal): Result<Decimal, QuantityError> {
    if quantity.NotFinite? then Err(InfiniteOrNaN)
    else if quantity.negative || quantity.coefficient == 0 then Err(NotPositive)
    else if -quantity.exponent > SCALE then Err(TooManyPlaces)
    else Ok(quantity)
  }

  predicate IsUpper(c: char) { 'A' <= c <= 'Z' }

  /** `SIGNAL_ID_PATTERN`, on the stripped text. */
  predicate SignalIdShape(text: string) {
    1 <= |text| <= 64 && forall i :: 0 <= i < |text| ==> SignalIdChar(text[i])
  }

  predicate SignalIdChar(c: char) { IsUpper(c) || 'a' <= c <= 'z' || IsDigit(c) || c in "_.:-" }

  /** `SYMBOL_PATTERN`, on the stripped and upper-cased text. */
  predicate SymbolShape(text: string) {
    5 <= |text| <= 20 && forall i :: 0 <= i < |text| ==> SymbolChar(text[i])
  }

  predicate SymbolChar(c: char) { IsUpper(c) || IsDigit(c) }

  datatype SchemaError = BadSignalId | BadSymbol | BadQuantity(problem: QuantityError)

  /** Every field that is wrong, in the order of the fields. */
  function Problems(payload: Payload): seq<SchemaError> {
    (if SignalIdShape(payload.signalId) then [] else [BadSignalId]) +
    (if SymbolShape(payload.symbol) then [] else [BadSymbol]) +
    (match ValidateQuantity(payload.quantity)
     case Err(problem) => [BadQuantity(problem)]
     case Ok(_) => [])
  }

  /** The schema. */
  function ValidateSchema(payload: Payload): Result<Payload, seq<SchemaError>> {
    if Problems(payload) == [] then Ok(payload) else Err(Problems(payload))
  }

  /** Deployment configuration. `clientOrderId` is `build_client_order_id`: some fixed function of the
      signal id (a prefix and a truncated hash). Nothing below needs it to be injective. */
  datatype Config = Config(
    clientOrderId: string -> string,
    ownerId: nat,
    allowedSymbols: set<string>,
    minimum: real,
    maximum: real,
    capacity: nat)

  datatype BusinessError = SymbolNotEnabled | BelowMinimum | AboveMaximum

  /** `validate_signal`. */
  function ValidateSignal(config: Config, payload: Payload): Result<Payload, BusinessError>
    requires payload.quantity.Finite?
  {
    if payload.symbol !in config.allowedSymbols then Err(SymbolNotEnabled)
    else if Value(payload.quantity) < config.minimum then Err(BelowMinimum)
    else if Value(payload.quantity) > config.maximum then Err(AboveMaximum)
    else Ok(payload)
  }

  /** The payload passes the schema check and the deployment's rules. */
  predicate Accepted(config: Config, payload: Payload) {
    ValidateSchema(payload).Ok? && ValidateSignal(config, payload).Ok?
  }

  // ---------------------------------------------------------------- which answer a payload gets

  const UPPER_CASE := "ABCDEFGHIJKLMNOPQRSTUVWXYZ"
  const LOWER_CASE := "abcdefghijklmnopqrstuvwxyz"
  const NUMERALS := "0123456789"

  /** A text of at least `least` and at most `most` characters, all from the alphabet. */
  predicate OverAlphabet(text: string, least: nat, most: nat, alphabet: string) {
    least <= |text| <= most && forall i :: 0 <= i < |text| ==> text[i] in alphabet
  }

  lemma Alphabets(c: char)
    ensures IsUpper(c) <==> c in UPPER_CASE
    ensures 'a' <= c <= 'z' <==> c in LOWER_CASE
    ensures IsDigit(c) <==> c in NUMERALS
  {}

  lemma ShapesAreAlphabets(text: string)
    ensures SignalIdShape(text) <==> OverAlphabet(text, 1, 64, UPPER_CASE + LOWER_CASE + NUMERALS + "_.:-")
    ensures SymbolShape(text) <==> OverAlphabet(text, 5, 20, UPPER_CASE + NUMERALS)
  {
    forall i | 0 <= i < |text|
      ensures SignalIdChar(text[i]) <==> text[i] in UPPER_CASE + LOWER_CASE + NUMERALS + "_.:-"
      ensures SymbolChar(text[i]) <==> text[i] in UPPER_CASE + NUMERALS
    {
      Alphabets(text[i]);
    }
  }

  lemma QuantityProblemsExactly(q: Decimal)
    ensures var r := ValidateQuantity(q);
      && (r == Err(InfiniteOrNaN) <==> q.NotFinite?)
      && (r == Err(NotPositive) <==> q.Finite? && Value(q) <= 0.0)
      && (r == Err(TooManyPlaces) <==> q.Finite? && Value(q) > 0.0 && q.exponent < -12)
      && (r == Ok(q) <==> q.Finite? && Value(q) > 0.0 && q.exponent >= -12)
      && (r.Ok? ==> r == Ok(q))
  {
    if q.Finite? {
      SameScale(0, q.coefficient, q.exponent);
    }
  }

  lemma SchemaProblemsAre(payload: Payload, problem: SchemaError)
    ensures problem in Problems(payload) <==>
              match problem
              case BadSignalId => !SignalIdShape(payload.signalId)
              case BadSymbol => !SymbolShape(payload.symbol)
              case BadQuantity(wrong) => ValidateQuantity(payload.quantity) == Err(wrong)
  {}

  /** Each wrong field is reported once, in order, and for what is wrong with it; nothing else is. */
  lemma SchemaProblemsExactly(payload: Payload)
    ensures var r := ValidateSchema(payload); var q := payload.quantity; var problems := Problems(payload);
      && r == (if problems == [] then Ok(payload) else Err(problems))
      && (r.Ok? <==> WellFormed(payload))
      && (BadSignalId in problems <==>
            !OverAlphabet(payload.signalId, 1, 64, UPPER_CASE + LOWER_CASE + NUMERALS + "_.:-"))
      && (BadSymbol in problems <==> !OverAlphabet(payload.symbol, 5, 20, UPPER_CASE + NUMERALS))
      && (BadQuantity(InfiniteOrNaN) in problems <==> q.NotFinite?)
      && (BadQuantity(NotPositive) in problems <==> q.Finite? && Value(q) <= 0.0)
      && (BadQuantity(TooManyPlaces) in problems <==> q.Finite? && Value(q) > 0.0 && q.exponent < -12)
      && (forall i, j :: 0 <= i < j < |problems| ==> Field(problems[i]) < Field(problems[j]))
  {
    ShapesAreAlphabets(payload.signalId);
    ShapesAreAlphabets(payload.symbol);
    QuantityProblemsExactly(payload.quantity);
    SchemaProblemsAre(payload, BadSignalId);
    SchemaProblemsAre(payload, BadSymbol);
    forall problem
      ensures BadQuantity(problem) in Problems(payload) <==> ValidateQuantity(payload.quantity) == Err(problem)
    {
      SchemaProblemsAre(payload, BadQuantity(problem));
    }
  }

  function Field(problem: SchemaError): nat {
    match problem
    case BadSignalId => 0
    case BadSymbol => 1
    case BadQuantity(_) => 2
  }

  /** The deployment's rules, in the order in which they are reported. */
  lemma RulesExactly(config: Config, payload: Payload)
    requires payload.quantity.Finite?
    ensures var r := ValidateSignal(config, payload);
      var enabled, value := payload.symbol in config.allowedSymbols, Value(payload.quantity);
      && (r == Err(SymbolNotEnabled) <==> !enabled)
      && (r == Err(BelowMinimum) <==> enabled && value < config.minimum)
      && (r == Err(AboveMaximum) <==> enabled && config.minimum <= value && config.maximum < value)
      && (r == Ok(payload) <==> enabled && config.minimum <= value <= config.maximum)
  {}

  /** What the schema asks for. */
  predicate WellFormed(payload: Payload) {
    && OverAlphabet(payload.signalId, 1, 64, UPPER_CASE + LOWER_CASE + NUMERALS + "_.:-")
    && OverAlphabet(payload.symbol, 5, 20, UPPER_CASE + NUMERALS)
    && payload.quantity.Finite? && payload.quantity.exponent >= -12 && Value(payload.quantity) > 0.0
  }

  /** A signal is accepted exactly when its id and symbol have the required shape, its quantity is a positive
      number with at most 12 decimal places within the configured limits, and its symbol is enabled. */
  lemma AcceptedExactly(config: Config, payload: Payload)
    ensures Accepted(config, payload) <==>
      && WellFormed(payload)
      && config.minimum <= Value(payload.quantity) <= config.maximum
      && payload.symbol in config.allowedSymbols
  {
    SchemaProblemsExactly(payload);
    if payload.quantity.Finite? {
      RulesExactly(config, payload);
    }
  }

  /** The exact quantity reaches the exchange: stored, read back, printed and parsed, it is the
      number in the payload. Storing refuses it exactly when it is 10^16 or more. */
  lemma QuantityRoundTrip(quantity: Decimal)
    requires ValidateQuantity(quantity).Ok?
    ensures StoreNumeric(quantity).Some? <==> Value(quantity) < TenTo(16)
    ensures StoreNumeric(quantity).Some? ==>
              var stored := StoreNumeric(quantity).value;
              && stored.Finite? && Fits(stored)
              && FormatDecimal(stored).Ok?
              && Canonical(FormatDecimal(stored).value)
              && var sent := ParsePlain(FormatDecimal(stored).value).value;
              sent.Finite? && Value(sent) == Value(quantity)
  {
    StoredExactly(quantity);
    if StoreNumeric(quantity).Some? {
      PrintingIsAnExactInverse(StoreNumeric(quantity).value);
    }
  }

  /** Under a cap below 10^16 no accepted signal can overflow the column. */
  lemma CappedQuantityIsStored(config: Config, payload: Payload)
    requires Accepted(config, payload) && config.maximum < TenTo(16)
    ensures StoreNumeric(payload.quantity).Some?
  {
    QuantityRoundTrip(payload.quantity);
  }
}
