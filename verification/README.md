# Huobi.Net client logic in Dafny

A model of the parts of the Huobi.Net REST client (`HuobiClient`) that hold
logic of their own, not just HTTP plumbing:

- **Balance aggregation** for the exchange-neutral `IExchangeClient`
  interface. Huobi reports one balance row per (currency, balance type). The
  client folds these rows into one record per asset, with a `Frozen` and a
  `Trade` amount. Interest and loan rows are skipped.
- **The common-interface translations**: neutral order side and type to
  `HuobiOrderType`, and a kline `TimeSpan` to a `HuobiPeriod`.
- **Request shaping**: the endpoint URL (`GetUrl`) and where the parameters
  go (`ConstructRequest`). A signed POST sends the authentication keys in
  the query string and every other parameter in the body.
- **Response unwrapping**: the version-2 envelope (`code` must be 200), the
  basic envelope (an `err-code` means failure), and the two error-body
  parsers.
- **Argument guards** that refuse a call before any request is sent.
- **The enum converters** `BalanceTypeConverter` and
  `LoanOrderStateConverter`. Each is a table of (value, wire string) pairs,
  and the model proves each table is a bijection.

Modules, one per concern:

| file | module | content |
|---|---|---|
| results.dfy | `Results` | `Option`, `Result`, `Outcome`, and the client's `Error` kinds |
| wire_table.dfy | `WireTable` | generic lookup, writing and reading in a converter table, and when such a table is a bijection |
| balance_type_converter.dfy | `BalanceTypeConverter` | `HuobiBalanceType` and its table |
| loan_order_state_converter.dfy | `LoanOrderStateConverter` | `HuobiLoanState` and its table |
| balance_aggregation.dfy | `BalanceAggregation` | the balance fold and its characterisation |
| common_interface.dfy | `CommonInterface` | `GetOrderType`, kline periods, common place-order and kline entry points |
| request_shaping.dfy | `RequestShaping` | `GetUrl`, parameter placement in `ConstructRequest` |
| envelopes.dfy | `Envelopes` | envelope unwrapping and error-body parsing |
| guards.dfy | `Guards` | argument checks |

The HTTP call is not modelled. Each unwrapper takes the call's outcome as an
input: either a failure carrying an error, or a received body that may have
deserialised to null.

Representation choices:

- Balance amounts are C# `decimal`s that are only copied, so they are `real`.
- A `TimeSpan` is its tick count. Two timespans are equal exactly when their
  tick counts are equal.
- The client refuses arguments in two ways, and the model keeps them apart.
  Some calls return a failed result carrying an `ArgumentError`; the model
  gives `Err(ArgumentError(..))`. Others throw an `ArgumentException`, which
  nothing in the client catches; the model gives the separate error
  `ArgumentException(..)` (a `Fail` from a guard, an `Err` from the kline
  translation). That error stands for the exception reaching the caller,
  not for a returned result. A `NullReferenceException` the client does not
  guard against is modelled the same way, as the error `NullReference(..)`.
- `IExchangeClient.OrderType` is taken to be `Limit | Market | Other`. The
  client only tests for `Limit`, so every other member becomes a market
  order.
- `HuobiBalanceWrapper`'s two fields are `Option`s. `None` means "no row
  wrote this field", so the field still holds its initial value.

Behaviour of the code worth knowing:

- `CancelOrdersAsync` refuses a call only when both id lists are absent
  (null). Two empty lists pass the guard, and the request is sent
  (`Guards.EmptyBatchCancelPasses`).
- Suppose the call succeeds but its body deserialises to null. The
  unwrappers then build a result with no error whose data is `default(T)`.
  The model returns `Ok(None)`, where `None` stands for that default value.
  The caller cannot tell it from real data:
  - For a `long` payload the data is 0. `PlaceOrderAsync` (lines 572-575)
    then raises `OnOrderPlaced` for order id 0 and reports the order as
    placed.
  - For the timestamped form the data is the pair of `default(T)` and
    `DateTime.MinValue`. `GetMergedTickerAsync` (line 159) then reads
    through the null first half and throws.
  - For the account balances the null payload makes `GetBalancesAsync`
    throw when it reads the row list (line 375). A payload whose row list is
    null makes the common interface's loop throw instead (line 1124). Both
    are modelled (`BalanceAggregation.FetchBalances`,
    `BalanceAggregation.CommonBalances`).
- A signed POST whose parameters go in the URI appends the whole map,
  authentication keys included, and then the authentication keys a second
  time (`RequestShaping.SignedUriPostRepeatsAuthKeys`).
- `SingleOrDefault` would throw if two records shared an asset. The fold
  never creates such a pair (`BalanceAggregation.Aggregate` ensures
  `AssetsDistinct`), so the model takes the first match and the throwing
  path is unreachable.

## Model

| member | source | states |
|---|---|---|
| BalanceTypeConverter.EveryTypeHasOneEntry | Huobi.Net/Converters/BalanceTypeConverter.cs:14-19 | each of the six balance types is listed by exactly one pair of the table |
| BalanceTypeConverter.WireStringsDistinct | Huobi.Net/Converters/BalanceTypeConverter.cs:12-20 | the six wire strings are pairwise different |
| BalanceTypeConverter.Encode | Huobi.Net/Converters/BalanceTypeConverter.cs:12-20 | the string written for a type is the one the table pairs it with, and is one of the accepted wire names |
| BalanceTypeConverter.Decode | Huobi.Net/Converters/BalanceTypeConverter.cs:12-20 | a string is read as a type exactly when it is a listed wire name, and writing that type gives the string back |
| BalanceTypeConverter.RoundTrip | Huobi.Net/Converters/BalanceTypeConverter.cs:12-20 | reading the string written for any balance type gives that type back |
| BalanceTypeConverter.WireRoundTrip | Huobi.Net/Converters/BalanceTypeConverter.cs:12-20 | writing the type read from any listed wire string gives that string back |
| BalanceTypeConverter.Entries | Huobi.Net/Converters/BalanceTypeConverter.cs:14-19 | the concrete pairs, e.g. TransferOutAvailable and "transfer-out-available", LoanAvailable and "loan-available", in both directions |
| LoanOrderStateConverter.EveryStateHasOneEntry | Huobi.Net/Converters/LoanOrderStateConverter.cs:14-17 | Created, Accrual, Cleared and Invalid each have exactly one pair in the table |
| LoanOrderStateConverter.WireStringsDistinct | Huobi.Net/Converters/LoanOrderStateConverter.cs:12-18 | "created", "accrual", "cleared" and "invalid" are pairwise different |
| LoanOrderStateConverter.Encode | Huobi.Net/Converters/LoanOrderStateConverter.cs:12-18 | the string written for a state is the one the table pairs it with |
| LoanOrderStateConverter.Decode | Huobi.Net/Converters/LoanOrderStateConverter.cs:12-18 | a string is read as a state exactly when it is listed, and writing that state gives the string back |
| LoanOrderStateConverter.RoundTrip | Huobi.Net/Converters/LoanOrderStateConverter.cs:12-18 | reading the string written for any loan state gives that state back |
| LoanOrderStateConverter.WireRoundTrip | Huobi.Net/Converters/LoanOrderStateConverter.cs:12-18 | the accepted wire names are exactly the four strings, and writing the state read from each gives it back |
| BalanceAggregation.Step | Huobi.Net/HuobiClient.cs:1126-1139 | one loop iteration keeps the assets pairwise distinct, and adds the row's currency to the asset set exactly when the row is not an interest or loan row |
| BalanceAggregation.Aggregate | Huobi.Net/HuobiClient.cs:1123-1142 | the aggregated list never lists an asset twice and is no longer than the row list |
| BalanceAggregation.AggregateBalances | Huobi.Net/HuobiClient.cs:1123-1142 | the in-place loop, which searches the list for an existing record, computes the same list as the fold, so every property below holds of it |
| BalanceAggregation.AggregateAssets | Huobi.Net/HuobiClient.cs:1126-1134 | an asset is in the aggregated list if and only if some row with that currency is neither an interest nor a loan row |
| BalanceAggregation.AggregateOrder | Huobi.Net/HuobiClient.cs:1129-1134 | assets appear in the order in which their first kept row appears |
| BalanceAggregation.AggregateFields | Huobi.Net/HuobiClient.cs:1136-1139 | an asset's Frozen is the balance of its last frozen row, and its Trade is the balance of its last other kept row; a field no row wrote is untouched |
| BalanceAggregation.KeptRowsContents | Huobi.Net/HuobiClient.cs:1126-1127 | the rows left after skipping are all neither interest nor loan rows, and every such row of the input occurs in them as often as in the input |
| BalanceAggregation.SkippedRowsIgnored | Huobi.Net/HuobiClient.cs:1126-1127 | removing every interest and loan row leaves the aggregated list unchanged, so nothing in it comes from those rows |
| BalanceAggregation.FetchBalances | Huobi.Net/HuobiClient.cs:369-376 | a failed or refused balance request passes its error on; a success with a null payload throws a null reference; otherwise the payload's row list, which may be null, is handed on |
| BalanceAggregation.CommonBalances | Huobi.Net/HuobiClient.cs:1112-1142 | a missing account id is a returned argument error, a failed fetch passes its error on, and a null row list throws a null reference; a row list gives the aggregated list of its rows: exactly the currencies of the kept rows, each with the last frozen and last other kept balance written for it |
| CommonInterface.GetOrderType | Huobi.Net/HuobiClient.cs:1146-1160 | the Huobi order type trades on the requested side, is a limit type exactly when a limit order was asked for, and is never a stop-limit type |
| CommonInterface.GetOrderTypeInjective | Huobi.Net/HuobiClient.cs:1146-1160 | two (type, side) pairs give the same Huobi order type if and only if they have the same side and are both limit or both not limit, so only Market and Other are merged |
| CommonInterface.CommonPlaceOrder | Huobi.Net/HuobiClient.cs:1061-1068 | the common place-order call fails, with a returned argument error, exactly when no account id is given; otherwise it forwards the order type GetOrderType gives for the requested type and side, which always passes the stop-limit guard |
| CommonInterface.CommonOpenOrdersPassGuard | Huobi.Net/HuobiClient.cs:1090-1093 | the common open-orders call passes no account id, so the account-id-without-symbol guard never refuses it |
| CommonInterface.KlineIntervalFromTimespan | Huobi.Net/HuobiClient.cs:1162-1176 | a returned period is the one whose duration equals the timespan, with 31 days also giving OneMonth; every other timespan throws an ArgumentException |
| CommonInterface.KlineIntervalOnto | Huobi.Net/HuobiClient.cs:1164-1173 | every period is returned for its own duration |
| CommonInterface.KlineIntervalSupported | Huobi.Net/HuobiClient.cs:1162-1175 | a timespan has a period if and only if it is one of the supported durations |
| CommonInterface.CommonKlines | Huobi.Net/HuobiClient.cs:1040-1046 | start or end times give a returned argument error; without them an unsupported timespan throws an ArgumentException; otherwise the period of the timespan is requested with the given limit or 500 |
| RequestShaping.GetUrl | Huobi.Net/HuobiClient.cs:998-1001 | the URL starts with the base address and ends with the endpoint; with a version, a "v", the version and "/" sit between them |
| RequestShaping.GetUrlEndpointRoundTrip | Huobi.Net/HuobiClient.cs:998-1001 | the endpoint can be read back from the URL given the base address and version |
| RequestShaping.GetUrlInjective | Huobi.Net/HuobiClient.cs:998-1001 | for a fixed base address and version, different endpoints give different URLs |
| RequestShaping.SplitSignedPost | Huobi.Net/HuobiClient.cs:930-936 | the query part has exactly the parameters whose key is an authentication key, the body part has exactly the rest, the two are disjoint, and together they are the original map |
| RequestShaping.ConstructRequest | Huobi.Net/HuobiClient.cs:920-969 | URI-position requests append the whole parameter map when it is not empty; a signed POST then appends the authentication keys as one more query, and keeps only the other parameters for the body; a body-position request writes its remaining parameters as the body exactly when there are some, and `{}` otherwise; a URI-position request has no body |
| RequestShaping.SignedUriPostRepeatsAuthKeys | Huobi.Net/HuobiClient.cs:927-936 | a signed POST with URI-position parameters sends each authentication key twice, in both of its two queries, with the same value, and has no body |
| RequestShaping.SignedPostPartition | Huobi.Net/HuobiClient.cs:930-936 | a signed POST with body parameters sends the authentication keys in its one query string and the rest in its body, with nothing lost or sent twice |
| RequestShaping.NoParameterLost | Huobi.Net/HuobiClient.cs:927-969 | for any method and position, every parameter reaches the request with its value, in a query string or in the body |
| Envelopes.UnwrapV2 | Huobi.Net/HuobiClient.cs:879-889 | the result is an error exactly when the call failed or the envelope's code is not 200; otherwise the envelope's data is returned unchanged |
| Envelopes.Unwrap | Huobi.Net/HuobiClient.cs:903-913 | the result is an error exactly when the call failed or the envelope carries an error code, which becomes a server error with that code and message; otherwise the data is returned unchanged |
| Envelopes.UnwrapStamped | Huobi.Net/HuobiClient.cs:891-901 | the same failure condition; the error text is the code, "-", then the message; a success carries the data with the envelope's timestamp |
| Envelopes.UnwrapAgreesWithStamped | Huobi.Net/HuobiClient.cs:891-913 | the plain and timestamped unwrappers fail on the same calls and deliver the same data |
| Envelopes.UnwrapV2RoundTrip | Huobi.Net/HuobiClient.cs:885-888 | unwrapping a code-200 envelope built around a payload gives the payload back |
| Envelopes.UnwrapRoundTrip | Huobi.Net/HuobiClient.cs:897-912 | unwrapping a basic envelope without an error code gives its payload back, with its timestamp for the timestamped form |
| Envelopes.TryParseError | Huobi.Net/HuobiClient.cs:975-981 | a body is an error exactly when it has an err-code or an err-msg field; the error text is the code, ", ", then the message |
| Envelopes.ParseErrorResponse | Huobi.Net/HuobiClient.cs:984-990 | with both fields present the error text is the code, ", ", then the message; otherwise it is the raw body |
| Envelopes.ErrorParsersAgree | Huobi.Net/HuobiClient.cs:975-990 | when both fields are present the two parsers give the same error |
| Guards.PlaceOrderGuard | Huobi.Net/HuobiClient.cs:550-551 | an order is refused, by a thrown ArgumentException, exactly when its type is stop-limit buy or stop-limit sell |
| Guards.OpenOrdersGuard | Huobi.Net/HuobiClient.cs:590-591 | an open-orders query is refused, by a thrown ArgumentException, exactly when an account id is given without a symbol |
| Guards.CancelOrdersGuard | Huobi.Net/HuobiClient.cs:641-642 | a batch cancel is refused, by a thrown ArgumentException, exactly when both id lists are absent |
| Guards.EmptyBatchCancelPasses | Huobi.Net/HuobiClient.cs:641-642 | empty id lists count as given, so they pass the guard |

## Left out

- HTTP calls, `async`, cancellation tokens and the `OnOrderPlaced`/`OnOrderCanceled` events: I/O. The unwrappers take the call's outcome as an input.
- Request signing (`HuobiAuthenticationProvider`): it is not part of this model. `ConstructRequest` receives the parameter map after the provider has added its keys. The header assembly of lines 942-961 is left out for the same reason.
- `CreateParamString`, `WriteParamBody` and Newtonsoft JSON (de)serialisation: foreign library calls. Query strings and bodies are parameter maps, not encoded text.
- `BaseConverter`'s quoting, case handling and unknown-value handling: it is not part of this model. Reading a wire string takes the first pair with exactly that string.
- `new Uri(...)` normalisation in `GetUrl` and `FillPathParameter`: code of the framework library. `GetUrl` is modelled as string concatenation.
- `ValidateHuobiSymbol`, `ValidateIntBetween`, `ValidateIntValues`, `ValidateNotNull` and `long.Parse`: extension methods and framework parsing not shown. The guards model only the checks written in `HuobiClient.cs`.
- `ToUnixTimestamp` (lines 1003-1008): it converts through a `double` millisecond count.
- The `quantity % 1 == 0` amount formatting (lines 568-569): it depends on how C# turns a `decimal` into a string.
- `GetSymbolName` (line 1019): it lower-cases with `ToLowerInvariant`, and Unicode case mapping is not modelled.
- The endpoint constants and the per-endpoint parameter dictionaries built with `AddOptionalParameter`: a framework helper, and they carry no logic beyond listing fields.
- `HuobiOrderType` members other than the six the client names: the enum declaration is not part of this model. They are folded into `OtherOrderType`, which no check distinguishes.
- `IExchangeClient.OrderType` and `OrderSide`: they are declared in the framework library, which is not part of this model. `OrderType` is modelled with the members `Limit`, `Market` and `Other`. A further member would behave like `Market`, because the client tests only for `Limit`.
- CommonInterface.GetOrderTypeInjective: it states which neutral types are merged for the three modelled `OrderType` members. With more members, every non-`Limit` member would be merged the same way.
- `HuobiClientOptions`, `IHuobiClient` and the DTOs under `Objects/`: configuration, an interface declaration and property bags, with no behaviour.
- The unwrappers' HTTP status code and response headers: they are copied unchanged into the result and play no part in the decisions modelled.
