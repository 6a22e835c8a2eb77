# Ordinary red packets: canonical signing string, request and reply

This project models the core of the red-packet payment module of the
`cnxfire/wechat` Go SDK (`pay/redpack/redpack.go`). A merchant sends an
ordinary red packet (a small cash transfer to a user's account) in three
steps:

- it fills a parameter map from the caller's parameters and the payment
  configuration;
- it signs the map's canonical string, which `orderParam` builds, with MD5
  and links the merchant key to the end;
- it posts the signed request over mutual TLS and classifies the gateway's
  XML reply by its `return_code` and `result_code`.

The model has four modules:

- `StringOrder`: Go's byte-wise string order, and the ascending arrangement
  of a key set. It also has the in-place sort of a key array (`sort.Strings`).
- `Decimal`: `strconv.FormatInt(v, 10)`, together with its inverse on
  canonical decimal strings.
- `Canonical`: `orderParam`. The function `OrderParam` specifies it. The
  method `BuildOrderParam` runs the source's two loops: collect keys in map
  order, sort them in place, then write into a buffer. The method is proved
  to return `OrderParam` whatever order the map hands out its keys in.
- `RedPack`: the configuration, parameter, request and reply records. It
  also holds the signed map, the request that carries the signature, the
  classification of the reply, and `SendRedPack` itself.

Some modelling choices:

- Map values are `Str(string)` or `Int(Int64)`. `Int64` is Go's `int` on a
  64-bit platform.
- Dafny strings are sequences of code points. For well-formed UTF-8, Go's
  byte-wise order of the encodings equals the code-point order used here.
- `util.MD5Sum`, `util.RandomStr(32)`, `util.PostXMLWithTLS` and
  `xml.Unmarshal` are passed to `SendRedPack` as arguments.
- The code does not validate the caller's parameters before posting. There
  is no "missing field" error: an empty string is simply left out of the
  signed string and still posted. The model follows the code.

## Model

| member | source | states |
|---|---|---|
| StringOrder.Less | pay/redpack/redpack.go:147 | Go's `<` on strings, the order `sort.Strings` sorts by: the first differing character decides, and a proper prefix comes first |
| StringOrder.LessAtFirstDifference | pay/redpack/redpack.go:147 | `a < b` exactly when `a` is a proper prefix of `b`, or `a` has the smaller character at the first position where they differ |
| StringOrder.LessTotal | pay/redpack/redpack.go:147 | two different keys are always ordered one way or the other, so sorting has one answer |
| StringOrder.LessTransitive | pay/redpack/redpack.go:147 | the byte-wise key order is transitive |
| StringOrder.LessAsymmetric | pay/redpack/redpack.go:147 | no two keys are each less than the other |
| StringOrder.SortedKeys | pay/redpack/redpack.go:140-147 | the keys of a set in strictly ascending order: each key exactly once, nothing else |
| StringOrder.StrictlyIncreasingUnique | pay/redpack/redpack.go:140-147 | two strictly ascending sequences with the same elements are equal, so the order the keys were collected in does not matter |
| StringOrder.AdjacentSortedDistinctStrict | pay/redpack/redpack.go:147 | a sequence that is sorted between neighbours and free of duplicates is strictly ascending |
| StringOrder.SortStrings | pay/redpack/redpack.go:147 | in-place sort of a key array: afterwards each element is no smaller than the one before, and the array holds the same multiset of keys |
| Decimal.NatDigits | pay/redpack/redpack.go:185 | the digits of a natural number have no leading zero, and are "0" exactly for zero |
| Decimal.FormatInt | pay/redpack/redpack.go:185 | base-10 rendering is a canonical decimal string that starts with '-' exactly when the number is negative |
| Decimal.ParseFormat | pay/redpack/redpack.go:185 | reading back the rendering of any integer gives that integer, so different ints give different strings |
| Decimal.FormatParse | pay/redpack/redpack.go:185 | every canonical decimal string is the rendering of its value, so the rendering is onto the canonical strings |
| Canonical.IsEmptyString | pay/redpack/redpack.go:173 | the test `v[k] == ""`: an int value, zero included, is never the empty string |
| Canonical.RenderValue | pay/redpack/redpack.go:181-188 | a string value is written verbatim; an int value is written as a canonical decimal string that reads back to that int |
| Canonical.Pair | pay/redpack/redpack.go:179-185 | a written pair is never empty, so the buffer is non-empty from the first pair on |
| Canonical.PairParts | pay/redpack/redpack.go:179-185 | a pair is the key, then '=', then the rendered value |
| Canonical.Kept | pay/redpack/redpack.go:149-152 | the keys visited, with empty-string values dropped and int values (zero included) kept, in the same order |
| Canonical.Pairs | pay/redpack/redpack.go:156-158 | one `k=v` pair per key, in the keys' order |
| Canonical.EmittedKeys | pay/redpack/redpack.go:140-152 | the keys that get written are exactly those other than "sign" whose value is not the empty string, in strictly ascending order |
| Canonical.OrderParam | pay/redpack/redpack.go:137-194 | the canonical string ends with `bizKey` verbatim, and is exactly `bizKey` when no key is written (an empty map included) |
| Canonical.Join | pay/redpack/redpack.go:153-158 | joining non-empty pairs gives the empty string exactly when there are no pairs, the condition the `buf.Len() > 0` guard tests |
| Canonical.JoinAppend | pay/redpack/redpack.go:153-158 | the join of two runs of pairs is the two joins with exactly one '&' between them |
| Canonical.JoinFromLeftAgrees | pay/redpack/redpack.go:153-158 | the join equals the left-to-right reading: the first pair, then '&' before each later one, and no '&' after the last |
| Canonical.OrderParamFromLeft | pay/redpack/redpack.go:149-160 | the canonical string is the signed pairs in ascending key order, the first with no '&' before it, each later one after exactly one '&', followed by `bizKey` |
| Canonical.OrderParamCongruence | pay/redpack/redpack.go:140-160 | two maps that agree on which keys are written and on their values give the same canonical string |
| Canonical.OrderParamIgnoresSign | pay/redpack/redpack.go:142-144 | whatever value the "sign" entry has, the string is the one for the map without it |
| Canonical.OrderParamIgnoresEmptyString | pay/redpack/redpack.go:150-152 | an entry whose value is the empty string gives the same string as leaving the key out |
| Canonical.EmittedKeysUnique | pay/redpack/redpack.go:140-152 | any strictly ascending list of exactly the written keys is the one the canonical string uses |
| Canonical.IntAlwaysWritten | pay/redpack/redpack.go:173-185 | every int entry other than "sign", zero included, is written, and its pair is among the written pairs |
| Canonical.StringWrittenUnlessEmpty | pay/redpack/redpack.go:173-175 | a string entry other than "sign" is written exactly when it is not the empty string |
| Canonical.ZeroIntIsWritten | pay/redpack/redpack.go:173-185 | an example: the one-entry map holding int 0 under `total_num` gives `total_num=0` followed by the suffix |
| Canonical.BuildOrderParam | pay/redpack/redpack.go:162-191 | collecting the keys, sorting them in place and writing the buffer returns `OrderParam(m, bizKey)` |
| Canonical.CollectKeys | pay/redpack/redpack.go:163-169 | the collected keys are every key of the map but "sign", each exactly once, in any order |
| Canonical.SortedKeysOfSort | pay/redpack/redpack.go:163-170 | sorting any duplicate-free collection of the keys gives the one ascending key sequence |
| Canonical.WritePairs | pay/redpack/redpack.go:171-189 | the buffer holds the pairs of the kept keys, joined by '&' |
| Canonical.WriteKey | pay/redpack/redpack.go:172-189 | one turn of the writing loop on the `i`-th key takes the buffer for the first `i` keys to the buffer for the first `i + 1` |
| Canonical.WriteStepAt | pay/redpack/redpack.go:172-189 | the buffer after `i + 1` keys, by cases on the `i`-th key: unchanged for an empty string, otherwise its pair, after '&' unless the buffer was empty |
| Canonical.WritePair | pay/redpack/redpack.go:179-188 | writing the key, '=' and the value by its type appends exactly one pair |
| Canonical.WriteStep | pay/redpack/redpack.go:172-189 | one turn of the writing loop: an empty string adds nothing, and a kept key adds its pair, after '&' unless the buffer is empty |
| RedPack.SignParams | pay/redpack/redpack.go:81-94 | the signed map has exactly the thirteen parameter names and no "sign" entry |
| RedPack.BizKey | pay/redpack/redpack.go:96 | the suffix is `&key=` followed by the pay key verbatim |
| RedPack.SignBase | pay/redpack/redpack.go:96-97 | the hashed string ends with the key suffix and is longer than it, since some pair is always signed |
| RedPack.TotalAmountSigned | pay/redpack/redpack.go:90 | the amount is always signed, even when zero |
| RedPack.TotalNumSigned | pay/redpack/redpack.go:91 | the number of recipients is always signed, even when zero |
| RedPack.NonceSigned | pay/redpack/redpack.go:86 | the nonce is signed exactly when it is not empty |
| RedPack.SceneIdSigned | pay/redpack/redpack.go:94 | the optional scene id is signed exactly when it is not empty |
| RedPack.FillParams | pay/redpack/redpack.go:81-94 | filling the map key by key gives the signed map, with each value taken from the parameters, the configuration or the nonce |
| RedPack.FillRequest | pay/redpack/redpack.go:99-114 | the request carries the same thirteen values as the signed map, under the same names, and the given signature |
| RedPack.RequestDetermined | pay/redpack/redpack.go:99-114 | a request is determined by the parameters it carries and its signature |
| RedPack.BuildRequest | pay/redpack/redpack.go:96-114 | the request carries the signed values, and its signature is MD5 of the canonical string with suffix `&key=` + PayKey; a receiver who recomputes it from the request's own fields gets that signature |
| RedPack.Classify | pay/redpack/redpack.go:123-133 | no error exactly when both codes are SUCCESS; a business error carrying err_code and err_code_des exactly when only the return code is SUCCESS; otherwise a rejection carrying the raw body, the signed string and the signature |
| RedPack.SendRedPack | pay/redpack/redpack.go:79-134 | the request posted to the red-packet gateway is `BuildRequest`; a transport error is returned unchanged with the zero reply; a decoding error is returned unchanged; otherwise the reply is classified with the signed string and its signature |
| RedPack.TestVectorEmitted | pay/redpack/redpack.go:81-94 | for the fixed regression parameters (empty scene id), the signed keys are the other twelve names, from act_name to wxappid, in this order |

## Left out

- `util.MD5Sum` (the MD5 digest of RFC 1321) is an uninterpreted function argument. Output casing and the digest of the regression vector are not modelled.
- `util.RandomStr(32)` is replaced by the `nonce` argument. Its length and alphabet are not modelled.
- `util.PostXMLWithTLS` is the `post` argument. The HTTPS exchange, certificate loading from `RootCa` and `PayMchID`, and XML marshalling of the request are not modelled. `post` receives the request record itself.
- `xml.Unmarshal` is the `decode` argument. The partly filled reply that Go leaves on a decoding error is whatever `decode` returns with its failure.
- The `map[string]string` branch of `orderParam` (pay/redpack/redpack.go:139-161) is not modelled separately. On string values it behaves as the modelled `map[string]interface{}` branch does.
- The `panic` at pay/redpack/redpack.go:187 cannot happen, because a value is typed as `Str` or `Int`. For the same reason, the model has no argument that is not a map, which the source answers with `""` and no suffix.
- Text of error messages: `Error` keeps only the values the messages carry, not the fixed text around them.
- Bytes: keys and values are code-point sequences, not UTF-8 byte strings, and `Byte` only types the raw reply body.
- Integer width: on a 32-bit platform Go's `int` is 32 bits wide. The model fixes the 64-bit width.
- The regression vector: the model proves which keys are signed, in what order, but not the literal canonical string those twelve pairs spell. The MD5 digest of that string is not modelled either.
- Validation of required fields before any network call: the code has none, so nothing is modelled. An empty string is dropped from the signed string and the request is posted.
- `groupredpackGateway` (pay/redpack/redpack.go:14) is declared but unused. `NewRedPack` is a constructor with no logic.
- pay/config/config.go is a plain record. All seven of its fields are copied into `RedPack.Config`. Only `AppID`, `PayKey`, `PayMchID` and `ClientIP` are used.
- wechat.go, the facade and logging setup, is not part of this model. Neither is officialaccount/context/context.go, the context wiring.
- Go's map iteration order is modelled as an arbitrary choice of the next unvisited key. Anything proved about the collected keys holds for every order.
