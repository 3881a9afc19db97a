# A Dafny model of the permission service and its support libraries

The permission service is a Go web service. It keeps a forest of permission nodes (API nodes and page menus) and a forest of groups, grants nodes to groups and shards its users over two tables. It is built on a support library, golib. This project models the decision logic of the service and of the golib packages it relies on, and proves properties of that model. Most Dafny modules follow one source file; `Forest` holds the bucketing and expansion shared by `service/node/get_node_list.go` and `service/group/get_group_list.go`, and `Wrappers`, `Bytes` and `Text` hold the Go library pieces the others share.

- **mcpack v2 decoder** (`McPackRead`, `McPackBind`, `McPackUnmarshal`). The binary pack format of downstream services:
  - tag classification: size class, the deleted test and the semantic type;
  - the item reader `readObjectAt`, with its checked offset advances and child counts;
  - the binder `bind`, which tests masks on the tag in a fixed order;
  - `Decode`, the dotted-path `Get` and the typed getters.

  The reader and the binder are methods proved equal to functional specifications. These surprising behaviours are modelled as the code has them and proved as lemmas:
  - the bool tag 0x31 binds as int8, so the bool branch is dead;
  - the `PCK` guard never fires;
  - V1 container tags 0x02/0x04 are rejected as deleted;
  - short-form containers are not recursed into;
  - unchecked payload and count slices are a distinct out-of-bounds outcome, where Go panics.
- **Block padding and AES framing** (`Encrypt`). PKCS7/PKCS5/zero padding and their inverses, the 16-byte key folding of `generateKey`, and the padding and trimming around the block cipher. The comment on `ZeroPadding` says aligned data is not padded. The code pads it with a full zero block, and the model follows the code.
- **Sonyflake IDs** (`Uuid`). The 63-bit layout and `toID`/`Decompose` as inverses. The generator state machine `NextID` is a class, and its IDs strictly increase. Also the private-IPv4 and machine-id checks of `NewSonyflake`.
- **Small helpers**:
  - `Min` and `Subtraction` (`Helpers`);
  - `Int64sContain`, `RandNum` bounds and `JoinArgs` truncation (`Utils`);
  - the caller-URI and pressure-test fields and the transport headers (`Trans`);
  - log and request ids and the no-log flag on a gin context (`Zlog`);
  - cron job wrapper chains (`CronChain`);
  - FNV-1a queue selection and `SendCmd` reporting (`Rmq`).
- **Service logic**:
  - the group update's parameter checks and id diffs (`UpdateGroup`);
  - the node and group forests (`Forest`, `NodeList`, `GroupList`), including the "exactly once" theorem;
  - user-table sharding (`UserShard`);
  - classic and scrolling pagination (`Pagination`).
- **Clients**:
  - Redis string commands with 32-key MGET chunking (`RedisString`);
  - the object-storage client's configuration, bodies, error mapping and bucket operations (`Zos`, `ZosBucket`);
  - the KMS envelope checks and the development cipher (`Kms`);
  - the HTTP client's body dispatch, retry policy, retry loop, log truncation and correctness code (`Http`).
- **Anti-spam check** (`AntiSpam`). Parameter filtering, the app id, the token expiry, the sorted sign string and the client-time window.

Shared modules:
- `Wrappers`: Option, Result and Outcome, where Outcome tells a returned value from a Go panic;
- `Bytes`: bytes and fixed-width integers;
- `Text`: the parts of strings and strconv the model uses.

Go's fixed-width integers are `int` values with explicit range predicates. A 64-bit wrap-around is written out where the source relies on it. Cryptographic digests, ciphers, base64, hex, JSON, URL encoding, the network, the clock and randomness are function parameters or inputs.

## Model

| member | source | states |
|---|---|---|
| Text.Split | pkg/golib/v2/utils/trans.go:33 | strings.Split always yields at least one field, and no field contains the separator |
| Text.JoinSplit | pkg/golib/v2/utils/trans.go:33 | joining the fields of strings.Split with the separator gives back the original string |
| Text.SplitJoin | pkg/golib/v2/gomcpack/mcpack/unmarshal.go:54 | splitting a join of separator-free fields gives back exactly those fields |
| Text.SplitWithoutSeparator | pkg/golib/v2/utils/trans.go:33-35 | a string without the separator splits into itself alone |
| Text.JoinAppend | pkg/golib/v2/utils/utils.go:102 | strings.Join of one more part appends the separator and that part |
| Text.JoinLength | pkg/golib/v2/utils/utils.go:102 | the joined length is the parts' total length plus one separator between each neighbouring pair |
| Text.ContainsAt | pkg/golib/v2/utils/trans.go:23 | strings.Contains holds exactly when the substring occurs at some index |
| Text.Decimal | pkg/golib/v2/zlog/util.go:88 | strconv.FormatUint yields a non-empty string of digits with no leading zero |
| Text.FormatInt | pkg/golib/v2/rmq/producer.go:119 | strconv.FormatInt yields a non-empty string that starts with '-' exactly for a negative number |
| Text.DecimalRoundTrip | pkg/golib/v2/zlog/util.go:88 | reading back a formatted unsigned number gives that number |
| Text.DecimalInjective | pkg/golib/v2/rmq/producer.go:131 | two numbers with the same decimal form are equal |
| Text.NumberFormatInt | pkg/golib/v2/utils/trans.go:59 | strconv.Atoi accepts what strconv.FormatInt produces and returns the original number |
| Text.LeadingZeros | pkg/golib/v2/kms/cipher.go:73 | leading zeros do not change the value of a digit string |
| Text.Zeros | pkg/golib/v2/kms/cipher.go:73 | a run of zeros is a digit string of value 0 |
| Text.LowerChar | pkg/golib/v2/redis/string.go:101 | strings.ToLower moves exactly the ASCII capitals 32 code points up and leaves every other character alone |
| Text.HexRoundTrip | pkg/golib/v2/utils/encrypt.go:57 | reading back a fixed-width hexadecimal rendering gives the number |
| Bytes.XorBit | pkg/golib/v2/utils/encrypt.go:250 | a bit of an exclusive or is 1 exactly when the operands' bits differ |
| Bytes.LE16 | pkg/golib/v2/gomcpack/mcpack/mcpack_v2.go:148 | binary.LittleEndian.Uint16 takes the first byte as the low byte and the second as the high byte |
| Bytes.LE32 | pkg/golib/v2/gomcpack/mcpack/mcpack_v2.go:254 | binary.LittleEndian.Uint32 is the low 16-bit word plus 65536 times the next one |
| Bytes.LE64 | pkg/golib/v2/gomcpack/mcpack/mcpack_v2.go:151 | binary.LittleEndian.Uint64 is the low 32-bit word plus 2^32 times the next one |
| Bytes.LE32OfPutLE32 | pkg/golib/v2/gomcpack/mcpack/mcpack_v2.go:267 | a 32-bit count written little-endian reads back as itself |
| Bytes.Signed | pkg/golib/v2/gomcpack/mcpack/mcpack_v2.go:146-152 | the two's-complement cast to intN is the unsigned value, less the modulus exactly when the top bit is set |
| Bytes.StringBytes | pkg/golib/v2/kms/cipher.go:73 | converting a string to bytes keeps its length and each character's low byte |
| Bytes.BytesString | pkg/golib/v2/gomcpack/mcpack/mcpack_v2.go:138-140 | converting bytes to a string keeps its length and each byte's value |
| Bytes.StringBytesRoundTrip | pkg/golib/v2/kms/cipher.go:73 | for byte-sized characters the string-to-bytes conversion is undone by the bytes-to-string conversion |
| Helpers.Min | helpers/utils.go:38-46 | the loop over the arguments computes MinOf, the left fold of the running-minimum step (replace when the running value is 0 or the argument is not larger) |
| Helpers.MinEmpty | helpers/utils.go:38-46 | Min of no arguments is 0 |
| Helpers.MinIsMinimum | helpers/utils.go:38-46 | without a zero among non-empty arguments, Min is one of them and no larger than any of them |
| Helpers.MinAfterZero | helpers/utils.go:38-46 | for non-negative values before a zero and positive values after it, Min is the minimum of the values after the zero, so Min(3, 0, 5) is 5 |
| Helpers.MinNonNegative | helpers/utils.go:38-46 | Min over non-negative values is non-negative |
| Helpers.MinNegativeIgnoresZero | helpers/utils.go:38-46 | a negative running value survives a later zero: Min(-5, 0, 3) is -5 |
| Helpers.Without | helpers/utils.go:56-60 | the filter is no longer than a and holds exactly the values of a not in b |
| Helpers.Elements | helpers/utils.go:50-55 | the set built from b holds exactly b's values |
| Helpers.Subtraction | helpers/utils.go:48-62 | the two loops compute the elements of a absent from b, in a's order with a's duplicates |
| Helpers.WithoutKeepsMembers | helpers/utils.go:56-60 | when no element of a is in b the result is a |
| Helpers.WithoutAppend | helpers/utils.go:56-60 | filtering a concatenation filters each part in turn, so a's order is kept |
| Helpers.SubtractNothing | helpers/utils.go:48-62 | Subtraction(a, []) is a |
| Helpers.SubtractSelf | helpers/utils.go:48-62 | Subtraction(a, a) is empty |
| Helpers.WithoutCovered | helpers/utils.go:56-60 | when every element of a is in b the result is empty |
| Helpers.WithoutCount | helpers/utils.go:56-60 | a value not in b keeps every copy it has in a |
| Bytes.Wrap64 | models/base.go:37 | Go's 64-bit int arithmetic: an in-range value is unchanged |
| Pagination.PageNo | models/base.go:24-27 | the page number is at least 1: positive numbers are kept, others become 1 |
| Pagination.PageSize | models/base.go:29-35 | the limit is in 1..100: above 100 gives 100, 0 or below gives 10, anything else is kept |
| Pagination.NormalPaginate | models/base.go:22-40 | the scope orders by id ascending, sets an offset and no id filter, and limits to 1..100 rows |
| Pagination.ScrollingPaginate | models/base.go:48-65 | the scope orders by id ascending with no offset, filters ids above the start or above -1 for a start of 0 or below, and limits by the same clamp |
| Pagination.FirstPage | models/base.go:24-37 | page 1, and every page number below it, starts at row 0 |
| Pagination.NormalOffset | models/base.go:37 | without overflow the offset is (pageNo - 1) * limit and never negative |
| Pagination.PagesContiguous | models/base.go:37-38 | page n + 1 begins exactly limit rows after page n |
| Pagination.OffsetOverflow | models/base.go:37 | page 2^57 + 1 of size 100 wraps the offset negative in Go's int |
| DemoPagination.NormalPaginate | models/demo/base.go:88-106 | the demo scope orders by id ascending, sets no id filter and limits to 1..100 rows |
| DemoPagination.ScrollingPaginate | models/demo/base.go:114-131 | the demo scrolling scope orders by id ascending with no offset and limits to 1..100 rows |
| DemoPagination.SameScopes | models/demo/base.go:88-131 | the demo copies build exactly the scopes of the models package |
| UpdateGroup.ConvertId2Slice | service/group/update_group.go:196-201 | the loop returns each row's node id, in row order and with the rows' length |
| UpdateGroup.NodeIds | service/group/update_group.go:196-201 | the node ids of the rows, one per row in row order |
| UpdateGroup.FiltrateId | service/group/update_group.go:203-207 | insert holds exactly the new ids absent from the old list, delete exactly the old ids absent from the new list |
| UpdateGroup.InsertDeleteDisjoint | service/group/update_group.go:203-207 | no id is both inserted and deleted |
| UpdateGroup.DiffReachesNew | service/group/update_group.go:203-207 | as sets, the old ids less the deletes plus the inserts are the new ids |
| UpdateGroup.UnchangedListsNoDiff | service/group/update_group.go:203-207 | an unchanged list gives no inserts and no deletes |
| UpdateGroup.CheckParams | service/group/update_group.go:209-220 | accepts exactly a non-empty name, a non-negative id and status 0 or 1, and reports the name first, then the id, then the status |
| UpdateGroup.PlanUpdate | service/group/update_group.go:24-58 | a parameter error is returned as is; then a failed API-node query and then a failed page-menu query each give ErrorDbSelect with its own message; it succeeds exactly when the checks pass and both queries return rows, and the API-node and page-menu diffs are then each FiltrateId of that kind's stored rows against the requested list |
| UserShard.GoRem | models/user/user.go:31 | Go's truncating remainder: the Euclidean one for a non-negative dividend, its negation's negated otherwise |
| UserShard.ToTableName | models/user/user.go:30-35 | an id goes to user2 exactly when it is even |
| UserShard.NamesDistinct | models/user/user.go:30-35 | the two shards have different table names |
| UserShard.TableByParity | models/user/user.go:30-35 | an id goes to user2 exactly when it is even and to user1 exactly when it is odd |
| UserShard.NegativeOddToUser1 | models/user/user.go:30-35 | -3 % 2 is -1 in Go, and -3 goes to user1 |
| UserShard.IdsIn | models/user/user.go:55-58 | the ids of one table are exactly the listed ids of that table |
| UserShard.TablesOf | models/user/user.go:55-58 | a table is used exactly when some listed id maps to it |
| UserShard.GroupByTable | models/user/user.go:54-58 | the grouping loop keys the map by exactly the tables used, each holding its ids in input order |
| UserShard.GroupingKeepsCounts | models/user/user.go:55-58 | an id's table group keeps every duplicate of it |
| CronChain.Then | pkg/gin/cron/chain.go:31-36 | the backward loop over the wrappers applies them last to first: the result is Wrapped(wrappers, j) |
| CronChain.ThreeWrappers | pkg/gin/cron/chain.go:25-31 | NewChain(m1, m2, m3).Then(j) is m1(m2(m3(j))), as the doc comment says |
| CronChain.EmptyChain | pkg/gin/cron/chain.go:31-36 | an empty chain returns the job unchanged |
| CronChain.ChainAppend | pkg/gin/cron/chain.go:21-36 | the chain of xs + ys wraps j in ys first, then in xs |
| Rmq.FnvStep | pkg/golib/v2/rmq/producer.go:104-105 | one FNV-1a step stays a 32-bit value |
| Rmq.Fnv1a32 | pkg/golib/v2/rmq/producer.go:104-106 | the 32-bit FNV-1a hash of the key's bytes is below 2^32 |
| Rmq.FnvFrom | pkg/golib/v2/rmq/producer.go:104-105 | hashing on from a running value stays a 32-bit value |
| Rmq.FnvAppend | pkg/golib/v2/rmq/producer.go:104-105 | hashing a + b continues from the hash of a |
| Rmq.FnvOfA | pkg/golib/v2/rmq/producer.go:104-106 | the hash of "a" is 0xe40c292c, the published FNV-1a test value |
| Rmq.Select | pkg/golib/v2/rmq/producer.go:100-107 | the chosen queue is one of the queues: queues[r] for an empty key, queues[FNV-1a(key) mod n] otherwise |
| Rmq.SameKeySameQueue | pkg/golib/v2/rmq/producer.go:104-106 | a non-empty key selects the same queue whatever the random value |
| Rmq.BuildMessage | pkg/golib/v2/rmq/producer.go:119-136 | the message carries the decimal command as tag, the decimal transaction id as key, the two mcpack properties and the shard only when non-empty |
| Rmq.NewMessageError | pkg/golib/v2/rmq/producer.go:127-129 | the wrapped error text starts with "NewMessage() error, body: ", ends with the wrapped error, and has room for exactly the body and ": " between them |
| Rmq.SendCmd | pkg/golib/v2/rmq/producer.go:117-148 | an encoding error returns an empty response and the error; a message error returns an empty response and that error wrapped with "NewMessage() error, body: " and the body; a send error gives ErrNo -1 with the message; success gives 0, "OK" and the transaction id |
| Rmq.ReplyMatchesError | pkg/golib/v2/rmq/producer.go:138-147 | the response reads 0 and "OK" exactly when no error is returned, and a non-zero transaction id only comes with success |
| Rmq.LabelsReadBack | pkg/golib/v2/rmq/producer.go:131 | the message key is all digits and reads back as the transaction id |
| Zlog.GinContext.constructor | pkg/golib/v2/zlog/util.go:33 | a context holds its request and an empty key store |
| Zlog.GenLogIDValue | pkg/golib/v2/zlog/util.go:85-90 | the log id value is in [2^31, 2^32) and keeps the low 31 bits of the clock |
| Zlog.LowBits | pkg/golib/v2/zlog/util.go:87-88 | the uint64 conversion of the clock leaves its low 31 bits unchanged |
| Zlog.GenLogID | pkg/golib/v2/zlog/util.go:85-90 | the log id is a non-empty decimal string whose value is GenLogIDValue |
| Zlog.GenRequestID | pkg/golib/v2/zlog/util.go:94-105 | the request id is h:h:0:1 with h the 16 lowercase hex digits of the number |
| Zlog.PowSixteen | pkg/golib/v2/zlog/util.go:97 | sixteen hex digits span exactly the 64-bit range |
| Zlog.LogIDOf | pkg/golib/v2/zlog/util.go:38-54 | the stored id wins, then the X_BD_LOGID or x_bd_logid header, then a generated id; never empty |
| Zlog.GetLogID | pkg/golib/v2/zlog/util.go:33-58 | without a context a fresh id; otherwise LogIDOf, and the id is stored under logID |
| Zlog.LogIDStable | pkg/golib/v2/zlog/util.go:39-56 | once stored, a later call returns the same log id |
| Zlog.LowerFallbackSameHeader | pkg/golib/v2/zlog/util.go:46-49 | x_bd_logid and X_BD_LOGID canonicalise to the same header, so the fallback reads the header already tried |
| Zlog.RequestIDOf | pkg/golib/v2/zlog/util.go:65-79 | the stored id wins, then the Uber-Trace-Id header, then a generated id; never empty |
| Zlog.GetRequestID | pkg/golib/v2/zlog/util.go:60-83 | without a context a fresh id; otherwise RequestIDOf, and the id is stored under requestId |
| Zlog.RequestIDStable | pkg/golib/v2/zlog/util.go:66-81 | once stored, a later call returns the same request id |
| Zlog.AddField | pkg/golib/v2/zlog/util.go:127-136 | the fields are appended to the stored field list and nothing else changes |
| Zlog.AddFieldKeepsOrder | pkg/golib/v2/zlog/util.go:127-144 | two calls append their fields in call order and leave every other key alone |
| Zlog.SetNoLogFlag | pkg/golib/v2/zlog/util.go:181-183 | the no-log key is set to true and nothing else changes |
| Zlog.SetLogFlag | pkg/golib/v2/zlog/util.go:185-187 | the no-log key is set to false and nothing else changes |
| Zlog.NoLog | pkg/golib/v2/zlog/util.go:189-198 | true exactly when there is a context whose no-log key holds true |
| Zlog.LastFlagDecides | pkg/golib/v2/zlog/util.go:181-198 | the last flag set decides: no-log after SetNoLogFlag, logging after SetLogFlag |
| Utils.Int64sContain | pkg/golib/v2/utils/utils.go:17-24 | the search loop answers true exactly when x occurs in a |
| Utils.RandBounds | pkg/golib/v2/utils/utils.go:62-72 | the range is [0, 100] with no argument, [0, n] with one, [a, b] with two or more |
| Utils.RandNum | pkg/golib/v2/utils/utils.go:61-76 | rand.Intn panics exactly when end - start + 1, in 64-bit int, is not positive: an empty range, or a range of 2^63 or more values; a range of fewer values never panics; with the random draw as an input, the result lies between start and end counting up with 64-bit wrap-around |
| Utils.Span | pkg/golib/v2/utils/utils.go:75 | the argument of rand.Intn, end - start + 1 in Go's 64-bit int |
| Utils.FullRangePanics | pkg/golib/v2/utils/utils.go:75 | the range [MinInt64, MaxInt64] wraps the span to 0, so the call panics |
| Utils.HalfRangePanics | pkg/golib/v2/utils/utils.go:75 | the range [MinInt64, 0] wraps the span negative, so the call panics |
| Utils.InvertedRangeWraps | pkg/golib/v2/utils/utils.go:75 | the inverted range [MaxInt64, MinInt64] has span 2 after wrap-around, and the draw 1 gives MinInt64 |
| Utils.RandNumCovers | pkg/golib/v2/utils/utils.go:75 | when the span is positive, every value between start and end, counting up with wrap-around, is reached by the draw (v - start) mod 2^64, which is below the span |
| Utils.PrefixLenMonotone | pkg/golib/v2/utils/utils.go:96 | the running length never decreases as more arguments are converted |
| Utils.StopAt | pkg/golib/v2/utils/utils.go:89-100 | the loop stops after the first argument that brings the running length to showByte, or after the last one |
| Utils.Converted | pkg/golib/v2/utils/utils.go:89-100 | the number of converted arguments is at most the number of arguments |
| Utils.NoEarlierStop | pkg/golib/v2/utils/utils.go:97-99 | before the stop the running length stays below showByte |
| Utils.ArgStr | pkg/golib/v2/utils/utils.go:88-95 | the argument strings have one entry per argument |
| Utils.ArgStrLength | pkg/golib/v2/utils/utils.go:88-96 | the unconverted entries are empty, so the strings from any index sum to the running length from there |
| Utils.ArgStrFits | pkg/golib/v2/utils/utils.go:102 | the joined string is at least as long as the running length, so the cut at showByte is in range |
| Utils.JoinArgs | pkg/golib/v2/utils/utils.go:85-107 | a negative showByte panics at the cut; otherwise the loop, the join and the cut compute JoinArgsOf(showByte, args) |
| Utils.JoinArgsTruncates | pkg/golib/v2/utils/utils.go:103-105 | a running length above showByte gives the first showByte bytes of the join followed by " ...", length showByte + 4 |
| Utils.JoinArgsShort | pkg/golib/v2/utils/utils.go:85-106 | a total length below showByte gives the plain space-join of all arguments |
| Utils.AllConverted | pkg/golib/v2/utils/utils.go:89-100 | a total length below showByte converts every argument |
| Utils.JoinArgsExact | pkg/golib/v2/utils/utils.go:96-106 | a running length exactly showByte is not cut, but the later arguments contribute only their separators |
| Utils.ArgStrSplit | pkg/golib/v2/utils/utils.go:88-100 | the argument strings are the converted arguments followed by empty strings |
| Trans.UpperChar | pkg/golib/v2/utils/trans.go:71 | header-name canonicalisation upper-cases a lowercase ASCII letter and leaves every other character alone |
| Trans.Canonical | pkg/golib/v2/utils/trans.go:71 | the canonical header name has the name's length, and a name with a byte outside the token set is left untouched |
| Trans.CanonicalIgnoresCase | pkg/golib/v2/utils/trans.go:71-73 | a header name and its lower-case form canonicalise alike, so header lookup ignores case |
| Trans.CaseOfLower | pkg/golib/v2/utils/trans.go:71 | lower-casing a character first changes neither its upper- nor its lower-case form, and maps only '-' to '-' |
| Trans.GetHeader | pkg/golib/v2/utils/trans.go:71-73 | a request without a header gives ""; a non-empty value is one stored under the canonical form of the name |
| Trans.CallerSources | pkg/golib/v2/utils/trans.go:69-85 | the four places the caller URI is read from, in precedence order |
| Trans.GetCallerURI | pkg/golib/v2/utils/trans.go:65-87 | a nil context gives ""; without a request the context value decides; otherwise a non-empty caller URI is one of the four sources |
| Trans.CallerURIPrecedence | pkg/golib/v2/utils/trans.go:65-87 | the caller URI is the first non-empty of the X_BD_CALLER_URI header, the HTTP_X_BD_CALLER_URI header, the _caller_uri query value and the _caller_uri context value, and empty exactly when all are |
| Trans.NilContextNoCaller | pkg/golib/v2/utils/trans.go:66-68 | a nil context gives the empty caller URI |
| Trans.GetPressureFlag | pkg/golib/v2/utils/trans.go:20-28 | returns the caller URI and a mark that is 1 exactly when the URI contains /qa/test, and 0 otherwise |
| Trans.NavigatorIsQATest | pkg/golib/v2/utils/trans.go:31-52 | navigator pressure traffic is also QA-test traffic |
| Trans.IsNavigatorPressure | pkg/golib/v2/utils/trans.go:31-40 | navigator pressure needs a non-empty caller URI and is QA-test traffic |
| Trans.IsQATestPressure | pkg/golib/v2/utils/trans.go:43-52 | QA-test traffic needs a caller URI with at least one comma |
| Trans.QATestIsMarked | pkg/golib/v2/utils/trans.go:20-52 | QA-test traffic carries the pressure mark 1 |
| Trans.JoinStartsWithFirst | pkg/golib/v2/utils/trans.go:33 | a join of fields starts with the first field |
| Trans.FieldsOfJoin | pkg/golib/v2/utils/trans.go:33-57 | splitting a comma-join of comma-free fields on commas gives the fields back |
| Trans.NavigatorExample | pkg/golib/v2/utils/trans.go:31-40 | the caller URI "svc,/qa/test,1" is navigator pressure |
| Trans.AtoiValue | pkg/golib/v2/utils/trans.go:59 | the value strconv.Atoi yields with its error dropped: 0 for a non-number, the number itself when it fits in 64 bits |
| Trans.AtoiFormatInt | pkg/golib/v2/utils/trans.go:59 | a formatted 64-bit integer reads back as itself |
| Trans.GetPressureTime | pkg/golib/v2/utils/trans.go:55-62 | fewer than 7 fields, or a non-numeric field 6, gives 0 |
| Trans.PressureTimeReads | pkg/golib/v2/utils/trans.go:55-62 | with 7 or more fields and a decimal integer as field 6, the pressure time is that integer |
| Trans.TransportOf | pkg/golib/v2/utils/trans.go:96-101 | the header map is kept on exactly the keys longer than 10 characters that start with X-Zyb-Ctx- and hold a value, each mapped to its first value |
| Trans.GetTransportHeader | pkg/golib/v2/utils/trans.go:90-107 | a nil context gives nil; with request headers, the loop builds TransportOf of them; otherwise the map stored under X-Zyb-Ctx- |
| Trans.SetTransportHeader | pkg/golib/v2/utils/trans.go:109-111 | storing the header map leaves the request alone |
| Trans.TransportRoundTrip | pkg/golib/v2/utils/trans.go:105-111 | without request headers, GetTransportHeader returns what SetTransportHeader stored |
| RedisString.ReplyBytes | pkg/golib/v2/redis/string.go:18 | redis.Bytes turns a nil reply into ErrNil |
| RedisString.ReplyString | pkg/golib/v2/redis/string.go:95-97 | redis.String reads a status reply as its text |
| RedisString.Get | pkg/golib/v2/redis/string.go:17-23 | a nil reply gives no value and no error, a bulk reply its bytes, and any other error is passed through |
| RedisString.SetCommand | pkg/golib/v2/redis/string.go:94-98 | SET key value, with EX and the first expiry exactly when an expiry is given |
| RedisString.Set | pkg/golib/v2/redis/string.go:91-105 | succeeds exactly when the reply reads as a string whose lower-case form is "ok" |
| RedisString.SetAcceptsOK | pkg/golib/v2/redis/string.go:99-104 | a plain OK status is accepted |
| RedisString.SetEx | pkg/golib/v2/redis/string.go:107-109 | SetEx is Set with one expiry |
| RedisString.PageNum | pkg/golib/v2/redis/string.go:30-50 | the page count is the integer ceiling of the key count over 32: zero exactly for no keys |
| RedisString.Chunk | pkg/golib/v2/redis/string.go:65-79 | chunk n is keys[32n..32(n + 1)], the last one up to the end: every chunk but the last has 32 keys and none is empty |
| RedisString.ChunksPartition | pkg/golib/v2/redis/string.go:65-79 | the first n chunks concatenate to the first 32n keys, and all of them to every key, in order |
| RedisString.MGET | pkg/golib/v2/redis/string.go:25-41 | the page loop computes MgetOf: replies concatenated in chunk order, stopping at the first failed chunk |
| RedisString.MgetOf | pkg/golib/v2/redis/string.go:25-41 | the specification of MGET: chunk replies concatenated in order, the first failed chunk's error ending it (properties in the rows around it) |
| RedisString.FailureSticks | pkg/golib/v2/redis/string.go:32-36 | once a chunk fails no later chunk changes the outcome |
| RedisString.MgetNoKeys | pkg/golib/v2/redis/string.go:30-40 | no keys give no command and an empty result |
| RedisString.MgetFirstError | pkg/golib/v2/redis/string.go:32-36 | a failed MGET returns the error of a chunk all of whose predecessors succeeded |
| RedisString.Nils | pkg/golib/v2/redis/string.go:54-56 | a failed chunk contributes exactly chunkLength nils |
| RedisString.MGet | pkg/golib/v2/redis/string.go:45-63 | the page loop computes MGetOf: each chunk's replies, or as many nils as the chunk has keys when it fails |
| RedisString.MGetOf | pkg/golib/v2/redis/string.go:45-63 | the specification of MGet: each chunk's replies, or one nil per key of a failed chunk (length in RedisString.MGetCoversKeys) |
| RedisString.MGetLength | pkg/golib/v2/redis/string.go:51-61 | when every successful chunk gives one reply per key, the result is as long as the chunks read so far |
| RedisString.MGetCoversKeys | pkg/golib/v2/redis/string.go:45-63 | when every successful chunk gives one reply per key, the result has one entry per key |
| Zos.Checked | pkg/golib/v2/zos/zos.go:97-116 | each of the five settings left at 0 gets its default (500 ms, 10 s, 50, 50, 10 min) and every other setting is kept |
| Zos.CheckedComplete | pkg/golib/v2/zos/zos.go:97-116 | after checkConf no defaulted setting is 0, and a second checkConf changes nothing |
| Zos.CheckedKeepsSettings | pkg/golib/v2/zos/zos.go:97-116 | a configuration with every defaulted setting non-zero is left unchanged |
| Zos.CustomerConfig.constructor | pkg/golib/v2/zos/zos.go:70-73 | the configuration holds the buckets and the client settings given |
| Zos.CustomerConfig.CheckConf | pkg/golib/v2/zos/zos.go:97-116 | the client settings become Checked of the old ones and the bucket list is untouched |
| Zos.ClampChunk | pkg/golib/v2/zos/zos.go:165-169 | an upload chunk of 0 becomes 5 GiB, any other value below 1 MiB becomes 1 MiB, and the rest are kept; never below 1 MiB |
| Zos.ClampIdempotent | pkg/golib/v2/zos/zos.go:165-169 | clamping a clamped chunk changes nothing |
| Zos.Domain | pkg/golib/v2/zos/zos.go:121-139 | on the docker platform the unix-socket domain; otherwise the configured domain, or the default one when none is set |
| Zos.ClientOf | pkg/golib/v2/zos/zos.go:141-159 | the client is named zos, uses Domain, logs no bodies (-1 limits) and takes MaxConnsPerHost from MaxIdleConnsPerHost |
| Zos.MaxConnsPerHostIgnored | pkg/golib/v2/zos/zos.go:153 | the configured MaxConnsPerHost has no effect on the client |
| Zos.NoBodiesLogged | pkg/golib/v2/zos/zos.go:148-149 | with -1 limits the client's request and response bodies are never logged |
| Zos.MakeBucket | pkg/golib/v2/zos/zos.go:164-177 | a bucket keeps its configuration with only the upload chunk clamped |
| Zos.BucketMapNames | pkg/golib/v2/zos/zos.go:161-180 | the bucket map is keyed by exactly the configured bucket names |
| Zos.LastConfigurationWins | pkg/golib/v2/zos/zos.go:163-180 | for a repeated bucket name the last configuration is the one kept |
| Zos.ChunksClamped | pkg/golib/v2/zos/zos.go:164-169 | every bucket in the map has an upload chunk of at least 1 MiB |
| Zos.NewBucket | pkg/golib/v2/zos/zos.go:118-183 | the loop builds BucketMap of the buckets with the checked settings and the client built from them |
| Zos.BytesBody | pkg/golib/v2/zos/zos.go:185-200 | a body is set exactly for non-nil data, and test-environment headers with the decimal length exactly in the test environment |
| Zos.StringBody | pkg/golib/v2/zos/zos.go:202-217 | a body is set exactly for non-empty text, and test-environment headers with the decimal length exactly in the test environment |
| Zos.BytesBodySends | pkg/golib/v2/zos/zos.go:185-200 | the request sends the data as given, or nothing for nil |
| Zos.StringBodySends | pkg/golib/v2/zos/zos.go:202-217 | the request sends the text's bytes |
| Zos.CheckError | pkg/golib/v2/zos/zos.go:219-228 | a transport error is passed through, a status other than 200 becomes an error carrying the body, and only 200 without transport error is success |
| Zos.CheckExist | pkg/golib/v2/zos/zos.go:230-242 | a transport error e gives (false, e); 200 gives (true, nil); 244 gives (false, nil); any other status gives false and the body as error |
| Zos.ExistAgreesWithError | pkg/golib/v2/zos/zos.go:219-242 | an object exists exactly when checkError passes; checkExist's errors are checkError's; and 244 is the one failure checkExist does not report |
| Kms.MagicSpells | pkg/golib/v2/kms/cipher.go:70 | the six magic bytes spell ZYBKMS |
| Kms.Reply | pkg/golib/v2/kms/cipher.go:28-56 | a transport error returns the input text and the error; a reply starting with the error prefix returns the input text and the reply as error; any other reply is the result |
| Kms.Encrypt | pkg/golib/v2/kms/cipher.go:20-39 | on any error the plaintext comes back unchanged |
| Kms.Decrypt | pkg/golib/v2/kms/cipher.go:41-57 | on any error the cipher text comes back unchanged |
| Kms.ReplyErrorIff | pkg/golib/v2/kms/cipher.go:28-38 | a call fails exactly when the transport fails or the reply starts with the error prefix |
| Kms.IsEncrypt | pkg/golib/v2/kms/cipher.go:59-87 | empty text is never encrypted; the guards run in source order, with the panic of the slice at line 81 as an outcome |
| Kms.IsEncryptMeansEnvelope | pkg/golib/v2/kms/cipher.go:59-87 | true exactly for non-empty text that decodes to an envelope: 24 bytes or more, ZYBKMS first, a decimal length L at [15, 23), 23 + L bytes and a hex app name at [23, 23 + L); a panic only for a negative L |
| Kms.EnvelopeAccepted | pkg/golib/v2/kms/cipher.go:67-86 | a well-formed envelope is accepted |
| Kms.NegativeLengthPanics | pkg/golib/v2/kms/cipher.go:73-81 | the length field "-0000001" parses, passes the length check and makes the slice at line 81 panic |
| Kms.IsEncryptChecked | pkg/golib/v2/kms/cipher.go:59-87 | with the negative length rejected, the check always returns, and returns true exactly for an envelope |
| Kms.DevIsEncrypt | pkg/golib/v2/kms/cipher.go:125-141 | true exactly when the text is non-empty, decodes, and starts with the dev prefix |
| Kms.DevEncrypt | pkg/golib/v2/kms/cipher.go:94-104 | empty text is an error; an RC4 error is passed on; otherwise the base64 of the prefix followed by the RC4 output |
| Kms.DevDecrypt | pkg/golib/v2/kms/cipher.go:106-123 | empty text, a bad encoding, and an encoded text no longer than the prefix are errors, in that order; the slice by the prefix length can panic |
| Kms.DevDecryptPanics | pkg/golib/v2/kms/cipher.go:114-118 | a 12-character text decoding to 9 bytes passes the length guard against a 10-byte prefix and panics at the slice |
| Kms.DevDecryptChecked | pkg/golib/v2/kms/cipher.go:106-123 | comparing the decoded length with the prefix: the errors in source order, and a result only from the RC4 decoding of what follows the prefix |
| Kms.DevDecryptAgrees | pkg/golib/v2/kms/cipher.go:106-123 | the source panics exactly when the encoded text is longer than the prefix but the decoded bytes are shorter, and agrees with the corrected check whenever both lengths exceed the prefix |
| Kms.DevRoundTrip | pkg/golib/v2/kms/cipher.go:94-123 | with an RC4 decoding that inverts the encoding and a base64 that reads back, decrypting an encryption gives the plaintext back |
| Http.FormRequestData | pkg/golib/v2/base/http.go:118-148 | only the two map types encode: a string map is form-encoded as is, and an any-map fails exactly when one of its values does not marshal |
| Http.GetData | pkg/golib/v2/base/http.go:71-116 | getData fails only when Data is empty and a JSON body or request body is given; a raw body fails exactly when it is not a string, a raw-byte body exactly when it is not bytes |
| Http.DataWins | pkg/golib/v2/base/http.go:72-79 | non-empty Data is form-encoded and wins over every other body option |
| Http.JsonBodyNext | pkg/golib/v2/base/http.go:81-84 | without Data, a JsonBody decides the data whatever RequestBody and Encode are |
| Http.NilBodyNoData | pkg/golib/v2/base/http.go:86-88 | without Data, JsonBody or RequestBody there is no data and no error |
| Http.UnknownEncodingIsForm | pkg/golib/v2/base/http.go:111-116 | an encoding the switch does not name is treated as form encoding |
| Http.RawBody | pkg/golib/v2/base/http.go:97-103 | the raw encoding succeeds exactly for a string body and sends its bytes |
| Http.GetContentType | pkg/golib/v2/base/http.go:149-166 | an explicit content type wins; otherwise application/json exactly for _json and form-urlencoded for everything else |
| Http.DataLabelledByEncoding | pkg/golib/v2/base/http.go:149-166 | Data is always form-encoded but labelled by Encode: with _json the form body is sent as application/json |
| Http.QuerySeparator | pkg/golib/v2/base/http.go:263-267 | the data is appended after '&' exactly when the URL already holds a '?', after '?' otherwise |
| Http.RequestTarget | pkg/golib/v2/base/http.go:260-271 | GET, HEAD and DELETE put the data in the URL and send no body; POST and PUT send it as the body; other methods send neither |
| Http.QueryRecoverable | pkg/golib/v2/base/http.go:260-268 | the query URL is the domain and path, the separator, then exactly the data |
| Http.EmptyQueryKeepsSeparator | pkg/golib/v2/base/http.go:263-267 | empty data still appends the separator: GET /a becomes /a? |
| Http.MakeRequest | pkg/golib/v2/base/http.go:253-277 | a data error is returned; then an http.NewRequest error for the method and the target URL is returned; otherwise the request goes to RequestTarget with GetContentType; it succeeds exactly when neither fails |
| Http.AttemptTimeout | pkg/golib/v2/base/http.go:466-471 | a positive request timeout wins, then a positive client timeout, then 3 s; always positive |
| Http.GetRetryPolicy | pkg/golib/v2/base/http.go:442-459 | the request policy, else the client policy, else retry on error, missing response or status at least RetryHttpCode when that is positive, else retry only on error |
| Http.CodePolicyExtendsDefault | pkg/golib/v2/base/http.go:449-456 | the status-code policy retries whenever the default one does |
| Http.RalCode | pkg/golib/v2/base/http.go:599-604 | 0 exactly when there is no error, a response, and a status that is neither 0 nor 400 or above; -1 otherwise |
| Http.CodePolicyMatchesRalCode | pkg/golib/v2/base/http.go:449-453 | without a transport error, the status-code policy at 400 retries exactly the replies calRalCode marks -1 |
| Http.StopFrom | pkg/golib/v2/base/http.go:504-547 | the loop stops at the first attempt from k whose reply the policy declines, or once attempts exceed Retry |
| Http.Do | pkg/golib/v2/base/http.go:461-568 | the retry loop computes DoOf: the stopping attempt, its reply, and the giving-up error when a retry was still wanted |
| Http.DoOf | pkg/golib/v2/base/http.go:499-555 | the loop stops after 1 to max(Retry, 0) + 1 attempts with the reply of the last attempt, and reports an error exactly when the policy still wanted a retry |
| Http.StopFromFirst | pkg/golib/v2/base/http.go:528-541 | the stop is the first attempt, from k on, at which the loop breaks |
| Http.AttemptBound | pkg/golib/v2/base/http.go:499-555 | at most max(Retry, 0) + 1 attempts; the error is set exactly when the policy still wanted a retry, which only happens on the last allowed attempt; every earlier reply was retried |
| Http.StopFromBefore | pkg/golib/v2/base/http.go:528-541 | no attempt before the stop breaks the loop |
| Http.NoRetryOneAttempt | pkg/golib/v2/base/http.go:539-541 | with Retry 0 or below exactly one attempt is made |
| Http.AcceptedFirstReply | pkg/golib/v2/base/http.go:528-531 | a first reply the policy declines is returned after one attempt without error |
| Http.DoDropsTransportError | pkg/golib/v2/base/http.go:526-555 | a policy that declines a transport error returns no response and no error |
| Http.DoChecked | pkg/golib/v2/base/http.go:526-555 | the corrected loop makes the same attempts and returns the same reply, but succeeds only when the policy declined the reply and there was no transport error |
| Http.DoCheckedAgrees | pkg/golib/v2/base/http.go:526-555 | for a policy that retries every transport error, the corrected loop is the source's |
| Http.LogBody | pkg/golib/v2/base/http.go:570-596 | limit -1 logs nothing; 0 means 10240; otherwise a body longer than the limit is cut to its leading limit bytes; below -1 the cut panics |
| Http.LogBodyIdempotent | pkg/golib/v2/base/http.go:581-593 | cutting a logged body again changes nothing |
| Http.FormatLogMsg | pkg/golib/v2/base/http.go:570-596 | the request and the response are each cut by their own limit |
| Http.LogSidesIndependent | pkg/golib/v2/base/http.go:570-596 | the logged request does not depend on the response, nor the response on the request |
| Encrypt.Repeat | pkg/golib/v2/utils/encrypt.go:120 | bytes.Repeat gives n copies of the byte |
| Encrypt.PadCount | pkg/golib/v2/utils/encrypt.go:119 | the pad length is between 1 and the block size and takes the length to the next multiple of the block size |
| Encrypt.PadCompletes | pkg/golib/v2/utils/encrypt.go:119 | blockSize - len % blockSize added to len gives the next multiple of blockSize strictly above len |
| Encrypt.PKCS7Padding | pkg/golib/v2/utils/encrypt.go:116-122 | the padded text keeps the input as a prefix, reaches the next multiple of the block size strictly above its length, and every added byte is the pad length |
| Encrypt.PKCS7UnPadding | pkg/golib/v2/utils/encrypt.go:124-140 | empty data gives nil; a last byte outside 1..32 removes nothing; a last byte n in 1..32 gives nil when the data is shorter than n and drops the last n bytes otherwise |
| Encrypt.PKCS7RoundTrip | pkg/golib/v2/utils/encrypt.go:118-140 | for block sizes 1..32, unpadding a padded text gives the text back |
| Encrypt.PKCS5Padding | pkg/golib/v2/utils/encrypt.go:142-145 | PKCS5 padding is PKCS7 padding with block size 8 |
| Encrypt.PKCS5UnPadding | pkg/golib/v2/utils/encrypt.go:147-149 | PKCS5 unpadding is PKCS7 unpadding |
| Encrypt.ZeroPadding | pkg/golib/v2/utils/encrypt.go:153-157 | the input followed by zeros up to the next multiple of the block size strictly above its length |
| Encrypt.ZeroPaddingAligned | pkg/golib/v2/utils/encrypt.go:151-157 | already aligned input still gains a whole block of zeros |
| Encrypt.ZeroUnPadding | pkg/golib/v2/utils/encrypt.go:158-163 | the result is the longest prefix that does not end in a zero byte, and only zero bytes were trimmed |
| Encrypt.ZeroRoundTrip | pkg/golib/v2/utils/encrypt.go:152-163 | zero unpadding undoes zero padding exactly when the text is empty or does not end in a zero byte |
| Encrypt.ZeroTrimStops | pkg/golib/v2/utils/encrypt.go:158-163 | trimming a text followed only by zeros stops at the end of the text when the text ends in a non-zero byte |
| Encrypt.Padding | pkg/golib/v2/utils/encrypt.go:88-99 | a padded result exists exactly for the PKCS7, PKCS5 and zero padding types |
| Encrypt.UnPacking | pkg/golib/v2/utils/encrypt.go:101-114 | every type other than PKCS7 and PKCS5, zero padding included, leaves the data as it is |
| Encrypt.PaddingRoundTrip | pkg/golib/v2/utils/encrypt.go:88-114 | PKCS5, and PKCS7 for block sizes 1..32, round-trip through padding and unPacking |
| Encrypt.Fold | pkg/golib/v2/utils/encrypt.go:245-252 | each of the 16 key columns is the xor of the key bytes at that position modulo 16 |
| Encrypt.FoldedKey | pkg/golib/v2/utils/encrypt.go:245-254 | the derived key has 16 bytes, each the xor of the key bytes in its column |
| Encrypt.ColumnXorPrefix | pkg/golib/v2/utils/encrypt.go:246-247 | over the first 16 or fewer key bytes a column is the key byte itself, or 0 past the key |
| Encrypt.FoldPrefix | pkg/golib/v2/utils/encrypt.go:246-247 | copying the key into 16 zero bytes gives the key prefix followed by zeros |
| Encrypt.FoldStep | pkg/golib/v2/utils/encrypt.go:250 | past the first 16 bytes, one more key byte is xored into its own column only |
| Encrypt.ColumnOf | pkg/golib/v2/utils/encrypt.go:249-250 | byte j of a 16-byte group starting at a multiple of 16 falls in column j |
| Encrypt.FoldShortKey | pkg/golib/v2/utils/encrypt.go:245-254 | a key of at most 16 bytes is zero-extended to 16 bytes |
| Encrypt.GenerateKey | pkg/golib/v2/utils/encrypt.go:245-254 | generateKey returns the 16-column xor fold of the key |
| Encrypt.XorGroup | pkg/golib/v2/utils/encrypt.go:249-251 | the inner loop xors the next group of at most 16 key bytes onto the key buffer, extending the fold over that group |
| Encrypt.BlockImage | pkg/golib/v2/utils/encrypt.go:217-219 | applying a block cipher to every 16-byte block keeps the length |
| Encrypt.AESPlain | pkg/golib/v2/utils/encrypt.go:208-214 | the plaintext is the source padded to the next multiple of 16 strictly above its length, every pad byte holding the pad length |
| Encrypt.AESTrim | pkg/golib/v2/utils/encrypt.go:233-242 | empty data trims to empty; a last byte above the length gives nil; otherwise that many trailing bytes are dropped |
| Encrypt.BlockFits | pkg/golib/v2/utils/encrypt.go:217 | a block that starts at or before a position inside whole blocks ends within them |
| Encrypt.BlocksDone | pkg/golib/v2/utils/encrypt.go:217 | the encryption loop, stepping by 16 while the start is within the source, stops exactly at the plaintext length |
| Encrypt.Pad | pkg/golib/v2/utils/encrypt.go:208-214 | the copy and pad loop builds exactly the AES plaintext |
| Encrypt.AESEncrypt | pkg/golib/v2/utils/encrypt.go:206-222 | the result is every block of the padded plaintext encrypted under the folded key |
| Encrypt.AESDecrypt | pkg/golib/v2/utils/encrypt.go:224-243 | input that is not whole blocks panics; otherwise every block is decrypted under the folded key and the result trimmed by its last byte |
| Encrypt.ImageBlock | pkg/golib/v2/utils/encrypt.go:218 | the block at a multiple of 16 in a block image is the cipher applied to that block |
| Encrypt.ImageInverse | pkg/golib/v2/utils/encrypt.go:217-230 | decrypting every block of an encryption gives the data back whenever decryption inverts encryption on blocks |
| Encrypt.ImageInverseAt | pkg/golib/v2/utils/encrypt.go:217-230 | that inversion holds at every single index |
| Encrypt.BlockStartOf | pkg/golib/v2/utils/encrypt.go:229 | the block holding an index starts at a multiple of 16, at most 15 below it, and fits in the data |
| Encrypt.AESRoundTrip | pkg/golib/v2/utils/encrypt.go:206-243 | with a block decryption that inverts the block encryption, AESDecrypt gives back what AESEncrypt was given |
| AntiSpam.GetAppId | pkg/antispam/antispam.go:136-148 | the appId field wins, then appid, then the default "homework"; the result is never empty |
| AntiSpam.SignParams | pkg/antispam/antispam.go:83-102 | the signed parameters are exactly the non-empty form fields other than sign and __scuid, each with its first value, plus cuid replaced by a non-empty __scuid |
| AntiSpam.RequestOf | pkg/antispam/antispam.go:76-134 | an unparsable form, an empty cuid and a missing sign each give their own error, in that order; otherwise the request holds cuid, sign, os (android by default), app id, _t_ and the signed parameters |
| AntiSpam.InitRequestParam | pkg/antispam/antispam.go:76-134 | the imperative parameter collection computes exactly RequestOf |
| AntiSpam.CollectParams | pkg/antispam/antispam.go:83-98 | the loop over the form collects each field's first value, skipping sign and __scuid, and remembers __scuid |
| AntiSpam.FirstValuesStep | pkg/antispam/antispam.go:85-97 | one more form field adds its first value exactly when it has one and is neither sign nor __scuid |
| AntiSpam.BelowIrreflexive | pkg/antispam/antispam.go:238 | no string sorts strictly before itself |
| AntiSpam.BelowTransitive | pkg/antispam/antispam.go:238 | the byte-wise string order is transitive |
| AntiSpam.BelowTotal | pkg/antispam/antispam.go:238 | of two different strings one sorts strictly before the other |
| AntiSpam.Insert | pkg/antispam/antispam.go:238 | inserting a key adds exactly that key |
| AntiSpam.Sort | pkg/antispam/antispam.go:238 | sort.Strings keeps the length and the set of keys |
| AntiSpam.InsertSorted | pkg/antispam/antispam.go:238 | inserting a new key into a strictly sorted list keeps it strictly sorted |
| AntiSpam.SortSorted | pkg/antispam/antispam.go:238 | sorting distinct keys gives a strictly sorted list |
| AntiSpam.FirstIsMember | pkg/antispam/antispam.go:238 | the first key of a non-empty list is in the list |
| AntiSpam.SortedUnique | pkg/antispam/antispam.go:238 | two strictly sorted lists with the same members are equal |
| AntiSpam.Enumerate | pkg/antispam/antispam.go:235-237 | an enumeration of a key set lists each key exactly once |
| AntiSpam.SortedKeys | pkg/antispam/antispam.go:234-238 | the keys of the parameter map in strictly ascending order, each exactly once |
| AntiSpam.SortedKeysOfAnyOrder | pkg/antispam/antispam.go:235-238 | whatever order the map hands its keys out in, sorting them gives the same list, so the sign string does not depend on map iteration order |
| AntiSpam.SignStringOfTwo | pkg/antispam/antispam.go:234-244 | the map {b: 2, a: 1} yields the sign string "a=1b=2" |
| AntiSpam.BuildSignString | pkg/antispam/antispam.go:233-244 | the collect, sort and concatenate loops build the key=value pairs in ascending key order |
| AntiSpam.CollectKeys | pkg/antispam/antispam.go:234-237 | the collected keys are the map's keys, each exactly once |
| AntiSpam.JoinPairs | pkg/antispam/antispam.go:241-244 | the concatenation loop yields key=value for each key in the given order |
| AntiSpam.SignOutcome | pkg/antispam/antispam.go:232-272 | the signature passes exactly when a signed text is built and its md5 equals the request's sign; a failure is either the rc4 error or the sign error |
| AntiSpam.SignVerify | pkg/antispam/antispam.go:232-272 | the method computes exactly SignOutcome, android signing with the key3 prefix and other systems with the rc4-wrapped token |
| AntiSpam.Sub64 | pkg/antispam/antispam.go:223 | a 64-bit subtraction is the exact difference when that fits, and otherwise differs from it by a multiple of 2^64 |
| AntiSpam.GetRandomToken | pkg/antispam/antispam.go:295-327 | a failed call or undecodable reply is ignored, a non-zero errNo is a token error, and otherwise the reply's key and expiry are returned |
| AntiSpam.GetRandomKey | pkg/antispam/antispam.go:214-229 | token errors pass through; a token expiring within 10 seconds of now, computed with 64-bit wrap-around, is nearly expired; otherwise the key is returned |
| AntiSpam.Atoi | pkg/antispam/antispam.go:279 | strconv.Atoi succeeds exactly on a decimal number within 64 bits, giving its value |
| AntiSpam.AtoiFormatInt | pkg/antispam/antispam.go:279 | strconv.Atoi reads back every formatted 64-bit integer |
| AntiSpam.TimeControlAsWritten | pkg/antispam/antispam.go:274-292 | with the switch off nothing is checked; an unreadable _t_ is a format error; otherwise the request is too old exactly when now - t, wrapping at 64 bits, exceeds maxTime |
| AntiSpam.TimeControl | pkg/antispam/antispam.go:274-292 | the intended check, with the exact difference now - t: a request is too old exactly when it is more than maxTime seconds old |
| AntiSpam.TimeControlAgrees | pkg/antispam/antispam.go:285-290 | the two agree whenever now - t fits in 64 bits |
| AntiSpam.TimeControlWrapsAround | pkg/antispam/antispam.go:285-290 | with _t_ the least 64-bit integer, the code as written accepts the request that the exact check rejects as too old |
| AntiSpam.CheckOutcome | pkg/antispam/antispam.go:150-180 | request errors come first; an unreachable token service lets the request through; an empty token is an error; a request passes only with a valid signature and a client time timeControl accepts, its age wrapping at 64 bits as written |
| AntiSpam.AppCheck | pkg/antispam/antispam.go:150-212 | the method returns exactly CheckOutcome; SdkCheck runs the same steps |
| AntiSpam.PassedRequestIsRecent | pkg/antispam/antispam.go:175-177 | when the client time's age fits in 64 bits, a request that passes with a token reply and the time switch on has a readable client time at most maxTime old |
| Forest.ChildrenOfMembers | service/node/get_node_list.go:67-69 | the bucket for a parent id holds exactly the rows with that parent id |
| Forest.ChildrenOfAppend | service/group/get_group_list.go:34-36 | bucketing keeps row order: the bucket of two runs of rows is the first run's bucket followed by the second's |
| Forest.LookupTreeMap | service/node/get_node_list.go:74 | reading the bucket map at a parent id, absent ids included, gives that parent's rows in row order |
| Forest.TreeMapUnique | service/node/get_node_list.go:66-69 | a map with exactly the rows' parent ids as keys and each key's rows in order is the bucket map |
| Forest.BuildTreeMap | service/node/get_node_list.go:66-69 | the append loop builds the bucket map of the rows |
| Forest.TreeMapOf | service/node/get_node_list.go:66-69 | the bucket map: each parent id that occurs, with its rows in order (the loop is Forest.BuildTreeMap, uniqueness Forest.TreeMapUnique) |
| Forest.TreeMapStep | service/group/get_group_list.go:35 | appending one row to its parent's bucket extends the bucket map by that row |
| Forest.ParentIdsStep | service/group/get_group_list.go:35 | one more row adds its parent id to the map's keys |
| Forest.ExpandAll | service/node/get_node_list.go:75-77 | expanding a list of children keeps its length |
| Forest.Expand | service/node/get_node_list.go:73-79 | the forest below a parent to a depth; stable once it halts (Forest.ExpandStable) and built from rows only (Forest.ExpandFromRows) |
| Forest.ExpandStable | service/node/get_node_list.go:73-79 | once the recursion halts within a depth, any larger depth gives the same forest |
| Forest.AttachChildren | service/node/get_node_list.go:73-79 | getChildrenList sets a node's children to the expansion of its bucket, recursively, when the expansion halts |
| Forest.AttachRoots | service/group/get_group_list.go:19-22 | the roots' loop gives the expansion below the virtual root 0 |
| Forest.ExpandAllCons | service/node/get_node_list.go:75-77 | the first child is expanded before the rest |
| Forest.Bares | service/node/get_node_list.go:74 | stripping the children from each row keeps length and order |
| Forest.ExpandFromRows | service/node/get_node_list.go:73-79 | every node of the forest is, without its children, one of the rows |
| Forest.ExpandStepFromRows | service/node/get_node_list.go:74-77 | when each child's subtree holds only rows, so does the parent's expansion |
| Forest.ExpandUnfold | service/node/get_node_list.go:74-77 | one level of expansion is the expansion of the bucket's children |
| Forest.ExpandAllFromRows | service/node/get_node_list.go:75-77 | a list of row children whose subtrees hold only rows expands to rows only |
| Forest.IdCountAppend | service/node/get_node_list.go:32-35 | counting an id in two runs adds the counts |
| Forest.DistinctChildren | service/node/get_node_list.go:67-69 | with distinct ids, an id is in a parent's bucket once exactly when that is its parent, and never otherwise |
| Forest.ParentOfMissing | service/node/get_node_list.go:67-69 | an id no row has has no parent |
| Forest.CountExpandAll | service/node/get_node_list.go:75-77 | the occurrences of an id in an expanded child list are its occurrences among the children plus those in their subtrees |
| Forest.SumOccurrencesHits | service/node/get_node_list.go:75-77 | per-child agreement of occurrences and ancestor hits adds up over the child list |
| Forest.SumHitsStep | service/node/get_node_list.go:75-77 | the ancestor hits over a child list grow by the count of the n-th ancestor among the children |
| Forest.SumHitsZero | service/node/get_node_list.go:75-77 | with no levels there are no hits |
| Forest.SumHitsChildren | service/node/get_node_list.go:74-77 | with distinct ids, hits below a parent's children plus the direct-parent case are the hits below the parent |
| Forest.OccurrencesAreHits | service/node/get_node_list.go:73-79 | with distinct ids, the occurrences of an id below a parent count the ancestor steps that land on that parent |
| Forest.OccurrencesStep | service/node/get_node_list.go:74-77 | occurrences equal hits one level up when they do for every child |
| Forest.OccurrencesUnfold | service/node/get_node_list.go:74-77 | the occurrences below a parent are those among its children plus those in their subtrees |
| Forest.HitsUnfold | service/node/get_node_list.go:74-77 | the same unfolding for ancestor hits |
| Forest.HitsMono | service/node/get_node_list.go:73-79 | more levels never give fewer hits |
| Forest.HitAt | service/node/get_node_list.go:73-79 | an ancestor at step k that is the parent adds a hit over the first k - 1 steps |
| Forest.LastHit | service/node/get_node_list.go:73-79 | a positive hit count has a last step on the parent |
| Forest.AncestorShift | service/node/get_node_list.go:73-79 | equal ancestors at two steps stay equal after the same number of further steps |
| Forest.HitsRepeat | service/node/get_node_list.go:73-79 | an ancestor chain that returns to a parent after q steps returns after every multiple of q |
| Forest.HitsGrow | service/node/get_node_list.go:73-79 | a chain through a parent twice hits it without bound, so it cannot halt |
| Forest.ExactlyOnce | service/node/get_node_list.go:32-35 | with distinct ids and a halting expansion, an id appears once below a parent when its ancestor chain reaches that parent, and never otherwise |
| Forest.SameHits | service/node/get_node_list.go:73-79 | past the halting depth more levels add no hits |
| Forest.AtMostOnce | service/node/get_node_list.go:73-79 | once the expansion halts, an id is hit at most once |
| Forest.ExpandChildren | service/node/get_node_list.go:32-35 | the forest below a parent is its bucket, in row order, each child carrying its own expansion |
| GroupList.Active | service/group/get_group_list.go:29-32 | the query keeps exactly the rows whose status is active |
| GroupList.Fetched | service/group/get_group_list.go:27-32 | the groups handed to the bucketing loop are exactly the active rows of a successful query, none after a failed one |
| GroupList.ActiveAppend | service/group/get_group_list.go:29-32 | the status filter keeps the table's order |
| GroupList.GetGroupTreeMap | service/group/get_group_list.go:27-38 | a failed query is reported, and the map buckets the rows fetched, active groups only, by parent id |
| GroupList.GetGroupsList | service/group/get_group_list.go:17-25 | the result is the forest of active groups below 0, together with the query's error |
| GroupList.FailedQueryIsEmpty | service/group/get_group_list.go:18-19 | a failed query gives an empty forest |
| GroupList.GroupForestActive | service/group/get_group_list.go:29-32 | every group in the forest is an active row of the table |
| GroupList.GroupForestOnce | service/group/get_group_list.go:19-24 | with distinct ids and a halting expansion, an active group appears exactly once when its chain of active ancestors reaches 0, and never otherwise |
| GroupList.GroupForestRoots | service/group/get_group_list.go:19 | the roots are the active groups whose parent is 0, in row order |
| NodeList.OfType | service/node/get_node_list.go:62-65 | the query keeps exactly the nodes of the requested type |
| NodeList.OfTypeAppend | service/node/get_node_list.go:62-65 | the type filter keeps the table's order |
| NodeList.OfGroup | service/node/get_node_list.go:111-115 | the checked-node query keeps exactly the rows of that group and node type |
| NodeList.CheckedIds | service/node/get_node_list.go:46-49 | the checked ids are exactly the node ids of the checked rows |
| NodeList.ResolvedGroupId | service/node/get_node_list.go:93-106 | a positive user id with group 0 takes the user's group, 0 when none is found; otherwise the group id stays |
| NodeList.CheckedRows | service/node/get_node_list.go:107-117 | a non-positive group id fetches nothing; a failed query is reported with no rows; otherwise exactly the rows of that group and type |
| NodeList.Select | service/node/get_node_list.go:46-50 | a checked node gets Selected = 1, any other node keeps its value, and nothing else changes |
| NodeList.MarkAll | service/node/get_node_list.go:53-55 | marking a child list keeps its length |
| NodeList.UpdateCheckedStatus | service/node/get_node_list.go:45-57 | the recursive update marks the node and all its descendants against the checked ids |
| NodeList.Mark | service/node/get_node_list.go:45-57 | the specification of updateCheckedStatus: the node selected when checked, then its children in turn |
| NodeList.MarkAllSnoc | service/node/get_node_list.go:53-55 | marking one more child appends that child marked |
| NodeList.MarkAllAppend | service/node/get_node_list.go:53-55 | marking two runs marks each |
| NodeList.MarkRoots | service/node/get_node_list.go:38-40 | the loop over the roots marks each root tree |
| NodeList.ResetAll | service/node/get_node_list.go:51-56 | clearing selection keeps the length of a child list |
| NodeList.ResetMark | service/node/get_node_list.go:45-57 | marking changes nothing but Selected: the tree shape and every other field stay |
| NodeList.ResetMarkAll | service/node/get_node_list.go:53-55 | the same for a whole child list |
| NodeList.Selects | service/node/get_node_list.go:45-57 | marking every node of a list one by one |
| NodeList.PreMark | service/node/get_node_list.go:45-57 | the nodes of a marked tree, in preorder, are the tree's nodes each marked |
| NodeList.PreMarkAll | service/node/get_node_list.go:38-40 | the same for a whole forest |
| NodeList.SelectsAppend | service/node/get_node_list.go:45-57 | marking two runs of nodes marks each |
| NodeList.IdCountSelects | service/node/get_node_list.go:45-57 | marking does not change how often an id occurs |
| NodeList.NodeForestOnce | service/node/get_node_list.go:32-40 | with distinct ids and a halting expansion, a node appears exactly once when its ancestor chain reaches 0, and never otherwise |
| NodeList.NodeForest | service/node/get_node_list.go:32-40 | the forest of the rows below 0 with the checked nodes marked, whose properties are NodeList.NodeForestOnce, NodeList.NodeForestSelected and NodeList.NodeForestRoots |
| NodeList.NodeForestSelected | service/node/get_node_list.go:36-40 | when the rows load unselected, a forest node is selected exactly when its id is checked |
| NodeList.NodeForestRoots | service/node/get_node_list.go:32-35 | the roots are the nodes whose parent is 0, in row order, each with its expansion, up to selection |
| NodeList.ResetAllIndex | service/node/get_node_list.go:51-56 | clearing selection of a list clears each element |
| NodeList.NodeListInput.constructor | service/node/get_node_list.go:11-17 | the input holds the given app, product, user, group and node type |
| NodeList.NodeListInput.CheckParams | service/node/get_node_list.go:81-89 | a negative app id is rejected first, then a negative product id; otherwise the input is valid |
| NodeList.NodeListInput.GetNodeTreeMap | service/node/get_node_list.go:59-71 | a failed query is reported; otherwise the nodes of the requested type are bucketed by parent id |
| NodeList.NodeListInput.GetCheckedNodes | service/node/get_node_list.go:91-118 | the group id is resolved from the user when needed, and the checked rows fetched for it; nothing else in the input changes |
| NodeList.NodeListInput.GetNodeList | service/node/get_node_list.go:23-43 | invalid parameters and a failed node query return no forest and their error; otherwise the forest of nodes of the type below 0, marked against the checked rows |
| Uuid.WidthsFill63 | pkg/golib/v2/utils/uuid.go:37-42 | time, sequence, random number and machine id take 37, 6, 4 and 16 bits, 63 together |
| Uuid.OrDisjoint | pkg/golib/v2/utils/uuid.go:155-158 | or-ing a shifted field with a value below the shift is their sum |
| Uuid.Unpack | pkg/golib/v2/utils/uuid.go:201-205 | shifting back and masking recover the two fields packed at a bit position |
| Uuid.PackOrdered | pkg/golib/v2/utils/uuid.go:155-158 | a larger high field packs to a larger number whatever the low field |
| Uuid.PackBound | pkg/golib/v2/utils/uuid.go:155-158 | packing a j-bit field above a k-bit field fits in j + k bits |
| Uuid.AndLowMask | pkg/golib/v2/utils/uuid.go:199-205 | and-ing with a k-bit mask keeps the low k bits |
| Uuid.AndShiftedMask | pkg/golib/v2/utils/uuid.go:197-204 | and-ing with a shifted mask and shifting back extracts that field |
| Uuid.Split | pkg/golib/v2/utils/uuid.go:201-205 | a number is its high part shifted back plus its low k bits |
| Uuid.ToID | pkg/golib/v2/utils/uuid.go:150-159 | toID fails exactly when the elapsed time reaches 2^37 |
| Uuid.PackFits | pkg/golib/v2/utils/uuid.go:155-158 | fields within their widths pack into 63 bits |
| Uuid.OrsPack | pkg/golib/v2/utils/uuid.go:155-158 | the or of the four shifted fields is the packed layout |
| Uuid.ToIDLayout | pkg/golib/v2/utils/uuid.go:150-159 | an in-range time, sequence and random number give the packed layout, whose top bit is clear |
| Uuid.PackOrderTime | pkg/golib/v2/utils/uuid.go:155-158 | a later time gives a larger id whatever the lower fields |
| Uuid.PackOrderSequence | pkg/golib/v2/utils/uuid.go:155-158 | at the same time, a larger sequence gives a larger id |
| Uuid.LayoutOrdered | pkg/golib/v2/utils/uuid.go:155-158 | ids are ordered by time and then by sequence |
| Uuid.MasksAre | pkg/golib/v2/utils/uuid.go:197-199 | Decompose's masks are the field masks at the field positions |
| Uuid.Decompose | pkg/golib/v2/utils/uuid.go:196-215 | the map has exactly the six keys id, msb, time, sequence, random-num and machine-id, and id is the id itself |
| Uuid.DecomposeEntries | pkg/golib/v2/utils/uuid.go:196-215 | Decompose maps id, msb, time, sequence, random-num and machine-id to the id and its fields |
| Uuid.PackHigh | pkg/golib/v2/utils/uuid.go:202-203 | Decompose reads back the packed time and sequence |
| Uuid.PackRandomNum | pkg/golib/v2/utils/uuid.go:204 | Decompose reads back the packed random number |
| Uuid.PackMachineID | pkg/golib/v2/utils/uuid.go:205 | Decompose reads back the packed machine id |
| Uuid.FieldsPack | pkg/golib/v2/utils/uuid.go:196-215 | repacking the decomposed fields of any number gives that number |
| Uuid.FieldsFit | pkg/golib/v2/utils/uuid.go:196-205 | the decomposed fields of a 63-bit number lie within their widths |
| Uuid.DecomposeToID | pkg/golib/v2/utils/uuid.go:150-215 | decomposing a generated id gives it back, msb 0, and the time, sequence, random number and machine id it was built from |
| Uuid.ToIDDecompose | pkg/golib/v2/utils/uuid.go:150-215 | every id with the top bit clear is the toID of its own decomposition |
| Uuid.ShlFits | pkg/golib/v2/utils/uuid.go:155-158 | a uint64 shift that keeps the field within 64 bits loses nothing |
| Uuid.NextSequenceCounts | pkg/golib/v2/utils/uuid.go:113-123 | the sequence steps by one and wraps from 63 to 0 |
| Uuid.NextSequenceStep | pkg/golib/v2/utils/uuid.go:123 | below 63 the sequence steps by one |
| Uuid.NextSequenceWraps | pkg/golib/v2/utils/uuid.go:123 | after 63 the sequence wraps to 0 |
| Uuid.AdvanceMovesForward | pkg/golib/v2/utils/uuid.go:118-129 | a later clock resets the sequence at the current time; otherwise the sequence steps, moving to the next time unit when it wraps; either way (time, sequence) strictly increases |
| Uuid.IDsIncrease | pkg/golib/v2/utils/uuid.go:112-133 | consecutive successful ids of one generator strictly increase |
| Uuid.ElapsedWrapsAtMax | pkg/golib/v2/utils/uuid.go:122-126 | at the largest int64 the increment at a sequence wrap overflows the elapsed time to the least int64, so a non-negative elapsed time is not kept forever |
| Uuid.AdvanceKeepsNonNegative | pkg/golib/v2/utils/uuid.go:119-126 | below the largest int64 a non-negative elapsed time stays non-negative and never decreases |
| Uuid.FirstIDHasSequenceZero | pkg/golib/v2/utils/uuid.go:83-129 | the first id after creation has sequence 0 |
| Uuid.ToSonyflakeTime | pkg/golib/v2/utils/uuid.go:135-139 | a non-negative time in nanoseconds becomes units of 10 ms |
| Uuid.CurrentElapsedTime | pkg/golib/v2/utils/uuid.go:141-143 | the elapsed time since the start is the exact difference whenever that fits in 64 bits |
| Uuid.Sonyflake.constructor | pkg/golib/v2/utils/uuid.go:80-93 | a fresh generator has the given start time and machine id, elapsed time 0 and sequence 63 |
| Uuid.Sonyflake.NextID | pkg/golib/v2/utils/uuid.go:112-133 | the state advances as the clock and sequence rule says, takes the new random number, and the id is toID of the new state; a non-negative elapsed time below the largest int64 never decreases |
| Uuid.GetUuidUInt64 | pkg/golib/v2/utils/uuid.go:17-26 | a nil generator (NewSonyflake failed) panics; otherwise the next id, or 0 when NextID fails |
| Uuid.GetUuidString | pkg/golib/v2/utils/uuid.go:17-21 | panics with a nil generator; otherwise the decimal form of GetUuidUInt64's result |
| Uuid.To4 | pkg/golib/v2/utils/uuid.go:173 | only a 4- or 16-byte address has an IPv4 form |
| Uuid.PrivateIsRfc1918 | pkg/golib/v2/utils/uuid.go:181-184 | isPrivateIPv4 holds exactly for addresses in 10.0.0.0/8, 172.16.0.0/12 and 192.168.0.0/16 |
| Uuid.IsPrivateIPv4 | pkg/golib/v2/utils/uuid.go:181-184 | a 4-byte address with first byte 10, 172 with second byte 16..31, or 192 with second byte 168; the CIDR reading is Uuid.PrivateIsRfc1918 |
| Uuid.InNetwork10 | pkg/golib/v2/utils/uuid.go:183 | 10.0.0.0/8 is the addresses starting with 10 |
| Uuid.InNetwork172 | pkg/golib/v2/utils/uuid.go:183 | 172.16.0.0/12 is 172 followed by 16..31 |
| Uuid.InNetwork192 | pkg/golib/v2/utils/uuid.go:183 | 192.168.0.0/16 is 192 followed by 168 |
| Uuid.FirstPrivateIPv4 | pkg/golib/v2/utils/uuid.go:167-178 | the search fails exactly when no address is a non-loopback network address with a private IPv4 form; otherwise it returns the first such one |
| Uuid.PrivateIPv4 | pkg/golib/v2/utils/uuid.go:161-179 | an interface listing error is passed on; otherwise the loop returns FirstPrivateIPv4 |
| Uuid.MachineIDIsLow16 | pkg/golib/v2/utils/uuid.go:192 | the machine id is the address's low 16 bits, ip[2] * 256 + ip[3] |
| Uuid.MachineIDOfIP | pkg/golib/v2/utils/uuid.go:192 | the machine id is ip[2] * 256 + ip[3] |
| Uuid.Lower16BitPrivateIP | pkg/golib/v2/utils/uuid.go:186-193 | an error is passed on; otherwise the machine id is the low 16 bits of the first private IPv4 address |
| Uuid.StartTimeOf | pkg/golib/v2/utils/uuid.go:88-93 | with no start time, 2014-09-01 00:00 UTC in 10 ms units |
| Uuid.NewSonyflake | pkg/golib/v2/utils/uuid.go:80-108 | no generator when the start time is ahead of now, the machine id fails or the check rejects it; otherwise a fresh generator with that start time and machine id, elapsed time 0 and sequence 63 |
| McPackRead.DeletedMask | pkg/golib/v2/gomcpack/mcpack/mcpack_v2.go:81-83 | isDeleted holds exactly when the type's 0x70 bits are all clear |
| McPackRead.ShortMask | pkg/golib/v2/gomcpack/mcpack/mcpack_v2.go:84-86 | isShort holds exactly when the 0x80 bit is set |
| McPackRead.FixedMask | pkg/golib/v2/gomcpack/mcpack/mcpack_v2.go:87-89 | isFixed holds exactly when the low four bits are not all clear, and they are the fixed content length |
| McPackRead.FixedSize | pkg/golib/v2/gomcpack/mcpack/mcpack_v2.go:244 | a fixed item's content length is below 16, and 0 exactly for a non-fixed type |
| McPackRead.HeaderSize | pkg/golib/v2/gomcpack/mcpack/mcpack_v2.go:96-105 | the header is 2 bytes for a fixed item, 3 for a short one and 6 otherwise |
| McPackRead.PropsKeys | pkg/golib/v2/gomcpack/mcpack/mcpack_v2.go:289-293 | an object's property map has a key exactly when some child's name, less one trailing zero byte, is that key |
| McPackRead.PropsLastWins | pkg/golib/v2/gomcpack/mcpack/mcpack_v2.go:289-293 | a repeated key maps to the last child carrying it |
| McPackRead.PropsCount | pkg/golib/v2/gomcpack/mcpack/mcpack_v2.go:282-296 | the property map has at most as many entries as children, and exactly as many when the keys are distinct |
| McPackRead.ReadHeader | pkg/golib/v2/gomcpack/mcpack/mcpack_v2.go:221-255 | a header read fits in the buffer, holds the type and name length bytes, never has a deleted type and takes a fixed type's length from its low bits; every failure is InvalidPack |
| McPackRead.Checked | pkg/golib/v2/gomcpack/mcpack/mcpack_v2.go:266-299 | a child error passes through; a found count that differs from the declared count as uint32 is InvalidPack; otherwise the container item |
| McPackRead.HeaderFails | pkg/golib/v2/gomcpack/mcpack/mcpack_v2.go:229-255 | a failed header read fails the item with InvalidPack |
| McPackRead.ItemIsBody | pkg/golib/v2/gomcpack/mcpack/mcpack_v2.go:218-302 | after a good header the item is read from its name on |
| McPackRead.ContainerBody | pkg/golib/v2/gomcpack/mcpack/mcpack_v2.go:257-299 | a container in bounds is its name, content and children checked against the 32-bit count at the content's start |
| McPackRead.ScalarBody | pkg/golib/v2/gomcpack/mcpack/mcpack_v2.go:257-263 | a scalar in bounds is its type, name and content, with no children |
| McPackRead.KidsStep | pkg/golib/v2/gomcpack/mcpack/mcpack_v2.go:269-276 | the child loop stops at the first failing child with its error, and otherwise goes on after the child's size |
| McPackRead.KidsCons | pkg/golib/v2/gomcpack/mcpack/mcpack_v2.go:269-276 | a successful child list read before the end begins with the child at that offset and continues after it |
| McPackRead.KidsTail | pkg/golib/v2/gomcpack/mcpack/mcpack_v2.go:269-276 | the rest of a child list is read after the first child's size |
| McPackRead.KidsBuild | pkg/golib/v2/gomcpack/mcpack/mcpack_v2.go:269-276 | a child followed by a successful read of the rest is the child list |
| McPackRead.PrependNothing | pkg/golib/v2/gomcpack/mcpack/mcpack_v2.go:274 | prepending no children changes nothing |
| McPackRead.PrependTwice | pkg/golib/v2/gomcpack/mcpack/mcpack_v2.go:274 | prepending twice is prepending the concatenation |
| McPackRead.PropsSnoc | pkg/golib/v2/gomcpack/mcpack/mcpack_v2.go:289-293 | one more child sets its key in the property map, replacing any earlier entry |
| McPackRead.ReadObjectAt | pkg/golib/v2/gomcpack/mcpack/mcpack_v2.go:218-302 | readObjectAt computes exactly the item ParseItem reads at the offset, or its error |
| McPackRead.ReadBody | pkg/golib/v2/gomcpack/mcpack/mcpack_v2.go:257-301 | the rest of readObjectAt after the header computes exactly ParseBody |
| McPackRead.ReadContainer | pkg/golib/v2/gomcpack/mcpack/mcpack_v2.go:266-299 | the container branch reads the count and children and checks the count, as ParseBody says |
| McPackRead.ReadChildren | pkg/golib/v2/gomcpack/mcpack/mcpack_v2.go:269-295 | the child loop computes exactly ParseKids, and the property map it fills is Props of the children |
| McPackRead.HeaderOf | pkg/golib/v2/gomcpack/mcpack/mcpack_v2.go:229-255 | a successfully read item had a good header |
| McPackRead.BodyOf | pkg/golib/v2/gomcpack/mcpack/mcpack_v2.go:257-299 | a successfully read body has the name and content slices at their offsets, no children for a scalar, and for a container children read from after the count that match it |
| McPackRead.Unfold | pkg/golib/v2/gomcpack/mcpack/mcpack_v2.go:218-302 | the header and body facts of a successfully read item together |
| McPackRead.ItemTag | pkg/golib/v2/gomcpack/mcpack/mcpack_v2.go:232-241 | a read item's type is the byte at its offset and is not deleted |
| McPackRead.HeaderFailures | pkg/golib/v2/gomcpack/mcpack/mcpack_v2.go:229-255 | fewer than two bytes, a deleted type, or a header past the end each give InvalidPack |
| McPackRead.V1ContainersRejected | pkg/golib/v2/gomcpack/mcpack/mcpack_v2.go:239-241 | the version 1 object and array types count as containers but are rejected as deleted, so they never parse |
| McPackRead.NamePastEnd | pkg/golib/v2/gomcpack/mcpack/mcpack_v2.go:257-259 | a name running past the buffer gives InvalidPack |
| McPackRead.ContentPastEnd | pkg/golib/v2/gomcpack/mcpack/mcpack_v2.go:261 | content running past the buffer is an out-of-bounds slice |
| McPackRead.CountPastEnd | pkg/golib/v2/gomcpack/mcpack/mcpack_v2.go:267-281 | a container whose count word runs past the buffer is an out-of-bounds slice |
| McPackRead.ItemLayout | pkg/golib/v2/gomcpack/mcpack/mcpack_v2.go:218-263 | a read item lies within the buffer, and its type, name and content sit where its header says, with the content length the header announces |
| McPackRead.KidsInWireOrder | pkg/golib/v2/gomcpack/mcpack/mcpack_v2.go:269-276 | each child is the item read at the offset reached by adding up the sizes before it, these offsets lie before the end, and the last child reaches it |
| McPackRead.KidAt | pkg/golib/v2/gomcpack/mcpack/mcpack_v2.go:269-276 | child i is the item read at its offset, before the end |
| McPackRead.KidsEnd | pkg/golib/v2/gomcpack/mcpack/mcpack_v2.go:269 | the loop ends at or past the end of the content |
| McPackRead.KidOffsetShift | pkg/golib/v2/gomcpack/mcpack/mcpack_v2.go:275 | the offsets after the first child are those of the rest, started after it |
| McPackRead.KidsBound | pkg/golib/v2/gomcpack/mcpack/mcpack_v2.go:269-276 | a container has no more children than bytes of content |
| McPackRead.ContainerCount | pkg/golib/v2/gomcpack/mcpack/mcpack_v2.go:267-298 | in a buffer below 4 GiB, a read array has exactly its declared count of children and a read object exactly its declared count of distinct keys |
| McPackRead.CountExact | pkg/golib/v2/gomcpack/mcpack/mcpack_v2.go:277-296 | the uint32 comparison is exact when there are fewer than 2^32 children |
| McPackRead.PropsBound | pkg/golib/v2/gomcpack/mcpack/mcpack_v2.go:282-295 | the property map has no more entries than children |
| McPackRead.DuplicateKeysRejected | pkg/golib/v2/gomcpack/mcpack/mcpack_v2.go:289-298 | when an object's declared count equals its number of children, their keys are distinct |
| McPackRead.ParseItemExtend | pkg/golib/v2/gomcpack/mcpack/mcpack_v2.go:218-302 | bytes after a readable item do not change how it reads |
| McPackRead.BodyExtend | pkg/golib/v2/gomcpack/mcpack/mcpack_v2.go:257-299 | the same for an item's body |
| McPackRead.KidsExtend | pkg/golib/v2/gomcpack/mcpack/mcpack_v2.go:269-276 | the same for a child list |
| McPackRead.SliceExtend | pkg/golib/v2/gomcpack/mcpack/mcpack_v2.go:260-261 | a slice within the buffer is unchanged by appended bytes |
| McPackRead.HeaderExtend | pkg/golib/v2/gomcpack/mcpack/mcpack_v2.go:229-255 | a header read is unchanged by appended bytes |
| McPackBind.TypeTagKinds | pkg/golib/v2/gomcpack/mcpack/mcpack_v2.go:136-176 | the mask chain sends each scalar type to its branch, except that bool (0x31) is caught by the int8 mask and short text and raw types still count as text and raw |
| McPackBind.LateNullUnreachable | pkg/golib/v2/gomcpack/mcpack/mcpack_v2.go:136-173 | every type that passes the final null mask was already taken as text, raw or the exact null type |
| McPackBind.BoolUnreachable | pkg/golib/v2/gomcpack/mcpack/mcpack_v2.go:145-167 | no type byte reaches the bool branch |
| McPackBind.ShortContainersInvalid | pkg/golib/v2/gomcpack/mcpack/mcpack_v2.go:111-175 | short-form object and array types are not containers and fall through to the invalid-type error |
| McPackBind.Bound | pkg/golib/v2/gomcpack/mcpack/mcpack_v2.go:113-126 | each child's bind outcome, one per child, in wire order |
| McPackBind.InOrderAll | pkg/golib/v2/gomcpack/mcpack/mcpack_v2.go:112-121 | an array binds exactly when every child does, to their values in order |
| McPackBind.GatherOk | pkg/golib/v2/gomcpack/mcpack/mcpack_v2.go:124-133 | an object binds exactly when every child kept in its property map binds |
| McPackBind.GatherEntries | pkg/golib/v2/gomcpack/mcpack/mcpack_v2.go:124-133 | the bound map has exactly the children's keys, and each key holds the value of the child kept for it |
| McPackBind.GatherKeys | pkg/golib/v2/gomcpack/mcpack/mcpack_v2.go:124-133 | the bound map has exactly the children's keys |
| McPackBind.GatherValues | pkg/golib/v2/gomcpack/mcpack/mcpack_v2.go:126-130 | each kept child's value is stored under its key |
| McPackBind.GatherValue | pkg/golib/v2/gomcpack/mcpack/mcpack_v2.go:126-130 | one more kept child, or a skipped one, keeps every later kept child's value under its key |
| McPackBind.PropsValues | pkg/golib/v2/gomcpack/mcpack/mcpack_v2.go:289-293 | every property is one of the children |
| McPackBind.SurvivorIsProp | pkg/golib/v2/gomcpack/mcpack/mcpack_v2.go:289-293 | the last child with a key is the property under that key |
| McPackBind.BindArrayAll | pkg/golib/v2/gomcpack/mcpack/mcpack_v2.go:111-122 | an array binds exactly when every child binds, to a list of their values in wire order |
| McPackBind.BindObjectOk | pkg/golib/v2/gomcpack/mcpack/mcpack_v2.go:123-134 | an object binds exactly when every property binds |
| McPackBind.BindObjectMap | pkg/golib/v2/gomcpack/mcpack/mcpack_v2.go:123-134 | a bound object is a map with the property keys, each holding its property's value |
| McPackBind.InOrderFirstError | pkg/golib/v2/gomcpack/mcpack/mcpack_v2.go:114-117 | a failing array reports the error of its first failing child |
| McPackBind.GatherError | pkg/golib/v2/gomcpack/mcpack/mcpack_v2.go:126-129 | a failing object reports the error of one of its failing properties |
| McPackBind.BindErrors | pkg/golib/v2/gomcpack/mcpack/mcpack_v2.go:108-177 | binding fails only with the invalid-type error or an out-of-bounds read of short content |
| McPackBind.BoolBindsAsInt8 | pkg/golib/v2/gomcpack/mcpack/mcpack_v2.go:145-146 | a bool item binds as the int8 of its first byte, and panics when its content is empty |
| McPackBind.ShortContainersFail | pkg/golib/v2/gomcpack/mcpack/mcpack_v2.go:111-175 | a short-form object or array fails to bind with the invalid-type error |
| McPackBind.BindShape | pkg/golib/v2/gomcpack/mcpack/mcpack_v2.go:107-134 | only an object binds to a map and only an array to a list |
| McPackBind.BindItem | pkg/golib/v2/gomcpack/mcpack/mcpack_v2.go:108-177 | bind succeeds exactly when Bind does and then gives its value; which error a failing object reports depends on map order |
| McPackBind.BindElements | pkg/golib/v2/gomcpack/mcpack/mcpack_v2.go:112-121 | the array loop succeeds exactly when every child binds, with their values in order |
| McPackBind.BindMembers | pkg/golib/v2/gomcpack/mcpack/mcpack_v2.go:124-133 | the object loop succeeds exactly when every property binds, with a map of the property keys to their values |
| McPackUnmarshal.PckGuardDead | pkg/golib/v2/gomcpack/mcpack/unmarshal.go:27-30 | the v1 check compares four bytes with the three-byte "PCK", so it never fires |
| McPackUnmarshal.DecodeStart | pkg/golib/v2/gomcpack/mcpack/unmarshal.go:24-39 | fewer than four bytes is InvalidPack, and a root that cannot be read passes its error on |
| McPackUnmarshal.DecodedRoot | pkg/golib/v2/gomcpack/mcpack/unmarshal.go:35-47 | a decoded map is the bound value of the item read at offset 0 |
| McPackUnmarshal.DecodedStartsWithObject | pkg/golib/v2/gomcpack/mcpack/unmarshal.go:41-47 | a buffer decodes only when it starts with the v2 object type |
| McPackUnmarshal.NonMapRootRejected | pkg/golib/v2/gomcpack/mcpack/unmarshal.go:45-49 | a root that binds to anything but a map is rejected as an invalid root |
| McPackUnmarshal.DecodeIgnoresTrailing | pkg/golib/v2/gomcpack/mcpack/unmarshal.go:23-50 | bytes after a decodable pack do not change what it decodes to |
| McPackUnmarshal.Decode | pkg/golib/v2/gomcpack/mcpack/unmarshal.go:23-50 | Decode succeeds exactly when Decoded does and then returns its map; the length and invalid-root errors are exact |
| McPackUnmarshal.Get | pkg/golib/v2/gomcpack/mcpack/unmarshal.go:53-68 | the segment loop walks the dotted key through nested maps, giving nil once a segment is missing |
| McPackUnmarshal.GetDotFree | pkg/golib/v2/gomcpack/mcpack/unmarshal.go:53-68 | a key without a dot is looked up in the root map, nil when absent |
| McPackUnmarshal.GetNested | pkg/golib/v2/gomcpack/mcpack/unmarshal.go:54-65 | dot-joined dot-free segments are walked in turn through nested maps |
| McPackUnmarshal.DottedKeyUnreachable | pkg/golib/v2/gomcpack/mcpack/unmarshal.go:54-65 | an entry whose own key holds a dot is never reached by Get |
| McPackUnmarshal.GetString | pkg/golib/v2/gomcpack/mcpack/unmarshal.go:71-81 | a text value under the key, else the default; no conversion between types (McPackUnmarshal.NoWidening, McPackUnmarshal.NullGivesDefaults) |
| McPackUnmarshal.GetBool | pkg/golib/v2/gomcpack/mcpack/unmarshal.go:83-93 | a bool value under the key, else the default; the bool tag binds as int8, so this only sees bools bound otherwise (McPackUnmarshal.BoolItemGetters); no conversion between types (McPackUnmarshal.NoWidening, McPackUnmarshal.NullGivesDefaults) |
| McPackUnmarshal.GetInt8 | pkg/golib/v2/gomcpack/mcpack/unmarshal.go:95-105 | an int8 value under the key, else the default; no conversion between types (McPackUnmarshal.NoWidening, McPackUnmarshal.NullGivesDefaults) |
| McPackUnmarshal.GetInt16 | pkg/golib/v2/gomcpack/mcpack/unmarshal.go:107-117 | an int16 value under the key, else the default; no conversion between types (McPackUnmarshal.NoWidening, McPackUnmarshal.NullGivesDefaults) |
| McPackUnmarshal.GetInt32 | pkg/golib/v2/gomcpack/mcpack/unmarshal.go:119-129 | an int32 value under the key, else the default; no conversion between types (McPackUnmarshal.NoWidening, McPackUnmarshal.NullGivesDefaults) |
| McPackUnmarshal.GetInt64 | pkg/golib/v2/gomcpack/mcpack/unmarshal.go:131-141 | an int64 value under the key, else the default; no conversion between types (McPackUnmarshal.NoWidening, McPackUnmarshal.NullGivesDefaults) |
| McPackUnmarshal.GetUint8 | pkg/golib/v2/gomcpack/mcpack/unmarshal.go:143-153 | a uint8 value under the key, else the default; no conversion between types (McPackUnmarshal.NoWidening, McPackUnmarshal.NullGivesDefaults) |
| McPackUnmarshal.GetUint16 | pkg/golib/v2/gomcpack/mcpack/unmarshal.go:155-165 | a uint16 value under the key, else the default; no conversion between types (McPackUnmarshal.NoWidening, McPackUnmarshal.NullGivesDefaults) |
| McPackUnmarshal.GetUint32 | pkg/golib/v2/gomcpack/mcpack/unmarshal.go:167-177 | a uint32 value under the key, else the default; no conversion between types (McPackUnmarshal.NoWidening, McPackUnmarshal.NullGivesDefaults) |
| McPackUnmarshal.GetUint64 | pkg/golib/v2/gomcpack/mcpack/unmarshal.go:179-189 | a uint64 value under the key, else the default; no conversion between types (McPackUnmarshal.NoWidening, McPackUnmarshal.NullGivesDefaults) |
| McPackUnmarshal.GetFloat32 | pkg/golib/v2/gomcpack/mcpack/unmarshal.go:191-201 | the bits of a float32 value under the key, else the default; no conversion between types (McPackUnmarshal.NoWidening, McPackUnmarshal.NullGivesDefaults) |
| McPackUnmarshal.GetFloat64 | pkg/golib/v2/gomcpack/mcpack/unmarshal.go:203-212 | the bits of a float64 value under the key, else the default; no conversion between types (McPackUnmarshal.NoWidening, McPackUnmarshal.NullGivesDefaults) |
| McPackUnmarshal.NullGivesDefaults | pkg/golib/v2/gomcpack/mcpack/unmarshal.go:70-212 | every typed getter returns its default when the key leads to nil |
| McPackUnmarshal.NoWidening | pkg/golib/v2/gomcpack/mcpack/unmarshal.go:118-200 | an int32 value is returned only by GetInt32; every other numeric getter returns its default |
| McPackUnmarshal.BoolItemGetters | pkg/golib/v2/gomcpack/mcpack/unmarshal.go:82-104 | a value read from a bool item is never seen by GetBool, and GetInt8 returns its first byte |
| ZosBucket.Mode | pkg/golib/v2/zos/bucket.go:79-85 | content no longer than the upload chunk goes up in one request; anything longer goes up in parts |
| ZosBucket.PartCount | pkg/golib/v2/zos/bucket.go:104 | parts = total / block + 1 is at least 1 |
| ZosBucket.Part | pkg/golib/v2/zos/bucket.go:113-117 | no part is longer than the block size |
| ZosBucket.Parts | pkg/golib/v2/zos/bucket.go:104-118 | there are total / block + 1 parts, part i being content[(i-1)*block : min(i*block, total)] |
| ZosBucket.PartsPrefix | pkg/golib/v2/zos/bucket.go:112-118 | the first k parts concatenate to the first min(k*block, total) bytes |
| ZosBucket.PartBounds | pkg/golib/v2/zos/bucket.go:113-118 | part bounds are ordered and within the content |
| ZosBucket.SliceJoin | pkg/golib/v2/zos/bucket.go:117-118 | a prefix and the slice after it make the longer prefix |
| ZosBucket.PartsCover | pkg/golib/v2/zos/bucket.go:112-118 | the parts concatenate back to the content |
| ZosBucket.DivBound | pkg/golib/v2/zos/bucket.go:104 | (total / block + 1) blocks exceed the content, total / block blocks do not, and the remainder fills the gap |
| ZosBucket.PartSizes | pkg/golib/v2/zos/bucket.go:104-118 | every part but the last is a whole block, the last holds total mod block bytes, and an exact multiple leaves the last part empty |
| ZosBucket.FullPart | pkg/golib/v2/zos/bucket.go:104-118 | a part that ends within the content holds a whole block |
| ZosBucket.MultipartHasTwoParts | pkg/golib/v2/zos/bucket.go:84-104 | content above the upload chunk is sent in at least two parts |
| ZosBucket.UploadFrom | pkg/golib/v2/zos/bucket.go:112-134 | a successful upload of parts k onward yields one record per part |
| ZosBucket.Header | pkg/golib/v2/zos/bucket.go:126-127 | Header.Get: the value stored under the canonical form of the name, "" when there is none |
| ZosBucket.HeaderIgnoresCase | pkg/golib/v2/zos/bucket.go:126-127 | a header name of token bytes and its lower-case form read the same value |
| ZosBucket.RecordsNumbered | pkg/golib/v2/zos/bucket.go:129-133 | the part records are numbered k+1 onward, one per part, in order |
| ZosBucket.ObjectKey | pkg/golib/v2/zos/bucket.go:256-259 | a non-empty directory is joined to the name with "/"; an empty one leaves the name as it is |
| ZosBucket.GetUrlByFileName | pkg/golib/v2/zos/bucket.go:251-269 | an empty name is an error; otherwise the url request for the object under the directory, its error, or its body as a string |
| ZosBucket.MultiUpload | pkg/golib/v2/zos/bucket.go:99-148 | the method computes the as-written multipart upload: the parts, the completing call and the URL lookup through GetUrlByFileName |
| ZosBucket.MultiUploadOf | pkg/golib/v2/zos/bucket.go:99-148 | the specification of multiUpload as written: the parts, the completing call, then GetUrlByFileName of the full key (ZosBucket.MultiUploadAsksDoubledKey) |
| ZosBucket.UploadParts | pkg/golib/v2/zos/bucket.go:110-134 | the loop that consumes the content a block at a time yields UploadFrom of the parts |
| ZosBucket.PartStep | pkg/golib/v2/zos/bucket.go:113-118 | taking min(block, remaining) bytes off the rest of the content yields the next part and the content after it |
| ZosBucket.UploadStep | pkg/golib/v2/zos/bucket.go:120-133 | a part upload either fails with its error or records its number and etag and hands the returned upload id to the next part |
| ZosBucket.PartRecorded | pkg/golib/v2/zos/bucket.go:126-134 | a part that went up adds its number and etag to the records and hands its upload id to the next part |
| ZosBucket.PrependNothing | pkg/golib/v2/zos/bucket.go:133 | prepending no records changes nothing |
| ZosBucket.PrependTwice | pkg/golib/v2/zos/bucket.go:133 | prepending twice is prepending the concatenation |
| ZosBucket.MultipartURLDoublesDirectory | pkg/golib/v2/zos/bucket.go:256-259 | with a directory set, the URL requested after a multipart upload is for directory/directory/name, not the object uploaded |
| ZosBucket.MultiUploadAsksDoubledKey | pkg/golib/v2/zos/bucket.go:99-148 | with a directory set and the parts and completing call for directory/name successful, multiUpload as written returns the URL request for directory/directory/name, a different key, while the corrected upload returns the one for directory/name |
| ZosBucket.UrlOfKey | pkg/golib/v2/zos/bucket.go:261-268 | the url request for a key succeeds exactly when the reply passes checkError |
| ZosBucket.MultiUploadChecked | pkg/golib/v2/zos/bucket.go:99-148 | the corrected multipart upload agrees with the source whenever there is no directory |
| ZosBucket.CheckedURLNamesObject | pkg/golib/v2/zos/bucket.go:142-147 | after a successful completing call, the corrected upload asks for the URL of the very key the parts went to |
| ZosBucket.SimpleUpload | pkg/golib/v2/zos/bucket.go:88-97 | a simple upload succeeds exactly when the reply passes checkError |
| ZosBucket.GenObjectKey | pkg/golib/v2/zos/bucket.go:354-378 | empty content is an error; otherwise the name, or the prefix and the content's md5, with the extension (jpg by default when neither type nor version is given), under the directory |
| ZosBucket.ContentKeysHaveExtension | pkg/golib/v2/zos/bucket.go:359-371 | without a version every generated key ends in "." and the extension |
| ZosBucket.UploadFileContent | pkg/golib/v2/zos/bucket.go:71-86 | empty content is an error; short content is a simple upload and long content the multipart upload as written to the generated key |
| ZosBucket.UploadFileContentChecked | pkg/golib/v2/zos/bucket.go:71-86 | the same steps with the corrected multipart upload: empty content is an error, a simple upload is unchanged, and long content goes through ZosBucket.MultiUploadChecked |
| ZosBucket.CheckedContentAgreesWithoutDirectory | pkg/golib/v2/zos/bucket.go:71-86 | without a directory the corrected and the as-written content upload give the same result |
| ZosBucket.UploadContent | pkg/golib/v2/zos/bucket.go:151-170 | a declared size above 5 GiB is refused before reading, a read error is passed on, and otherwise the content goes up in one request |
| ZosBucket.SizeGuardTrustsCaller | pkg/golib/v2/zos/bucket.go:152-154 | the guard checks the declared size only, so content of any length goes up when the caller says 0 |
| ZosBucket.DownloadContent | pkg/golib/v2/zos/bucket.go:204-223 | an empty name is an error; otherwise the download of the object under the directory, its error or its body |
| ZosBucket.Download2Local | pkg/golib/v2/zos/bucket.go:172-202 | an empty name or a failed download is reported; otherwise the result of writing the body to the destination file |
| ZosBucket.KeyList | pkg/golib/v2/zos/bucket.go:273-281 | the object keys of the non-empty names, none of them empty |
| ZosBucket.JoinObjectKeys | pkg/golib/v2/zos/bucket.go:272-287 | the accumulation loop joins the object keys of the non-empty names with "," |
| ZosBucket.KeyListStep | pkg/golib/v2/zos/bucket.go:274-286 | an empty name is skipped; any other adds its key, after a "," unless it is the first |
| ZosBucket.SingleNameSameKey | pkg/golib/v2/zos/bucket.go:278-286 | one name gives the same key as GetUrlByFileName uses |
| ZosBucket.KeysSplitBack | pkg/golib/v2/zos/bucket.go:282-286 | when no name or directory holds a comma, splitting the joined keys on "," gives the keys back |
| ZosBucket.KeysWithoutComma | pkg/golib/v2/zos/bucket.go:278-281 | keys built from comma-free names and directory are comma-free |
| ZosBucket.GetUrlByFileNames | pkg/golib/v2/zos/bucket.go:271-301 | one batch url request for the joined keys: its error, or the decoded map of its body |

## Left out

- Network and transport I/O are inputs: the HTTP exchange, the Redis server's replies, the KMS and token servers, the object store and the RocketMQ producer. `HttpGet`, `HttpPost`, `HttpPostJson`, `HttpDo`, `HttpStream`, `Nshead`, `InitHttp`, `drainAndCloseBody`, `SetRetryPolicy`, `GetTransPort` and the HTTP timing statistics are transport plumbing around the modelled decisions, so they are not modelled.
- Http.Do: models the retry loop as written, which drops a transport error whenever the policy declines a retry (see Findings). `Http.DoChecked` is the corrected reading.
- MD5, SHA-1, CRC32, base64, hex, RC4, DES and AES, JSON, mcpack marshalling, URL form encoding, `fmt` and `strconv` formatting, `path.Join` and `http.CanonicalHeaderKey` (beyond the header names used) are uninterpreted function parameters. `Md5`, `Sha1`, `CRC32`, `Rc4Encode*`/`Rc4Decode*`, `EncryptDesEcb` and `DecryptDesEcb` are therefore not modelled as operations.
- Encrypt: `AESEncrypt` and `AESDecrypt` run the block cipher over a sequence snapshot with a ghost image, not over a Go byte slice updated in place.
- Uuid: single-threaded by design. The mutex, `sleepTime` and the clock are replaced by the current time as a parameter. The package-level generator is a parameter too, nil when `NewSonyflake` failed; `GetUuidUInt64` and `GetUuidString` then panic, as the nil dereference in `NextID` does.
- Utils: `GenUUID`, `GetFunctionName`, `GetHandler` and `IsNil` depend on reflection, the runtime or a uuid library, so they are not modelled. `JoinArgs` takes its arguments as their already-formatted strings.
- LowerChar: lower-cases ASCII letters only, where Go's `strings.ToLower` also maps non-ASCII letters (the Kelvin sign U+212A becomes 'k'). A Go string is modelled one character per byte, with no UTF-8 decoding, so `Text.ToLower` and the `strings.ToLower(res) != "ok"` test of `RedisString.Set` see the bytes of a multi-byte character separately.
- Trans: `AtoiValue` drops strconv's error, as the source does. Header names are canonicalised by the general rule, and no lemma states the canonical form of a particular header name.
- Zlog: `GetRequestUri`, `AddNotice`, `GetCustomerKeyValue`, `PrintNotice` and `PrintFields` only log or read logging state, so they are not modelled. The clock and random number are parameters.
- Logging everywhere (zap fields, warnings, metrics) is not modelled.
- Database access is a snapshot of each table's rows, or the error its query reports, and a WHERE clause is a filter on it. ORDER BY is the order of the snapshot. In `GroupList` and `NodeList` a failed query's error is reported together with no rows; in `UpdateGroup.PlanUpdate` each query is its rows or its error, and an error ends the update. gorm scopes are modelled as the clauses they add, in `Pagination`.
- Pagination: the demo package's option helpers (`WithID`, `WithName`, `WithNames`, `FilterStatus`, `FilterCreate*`, `WithValidStatus`, `getDB`) and the `UnixTime`/`PhoneNumber` column types are ORM plumbing, so they are not modelled.
- UserShard: `Insert` and `GetUserByUserID` are modelled only through their table choice. `models/user/user.go` sends the calls to the database.
- UpdateGroup: the database transaction in `update` is not modelled. Only its decision logic is: the parameter checks and the insert and delete lists.
- NodeList and GroupList: Tree nodes that the source shares by address are modelled as values. `Selected` is not a column, so every loaded row starts with 0.
- Forest: the recursive expansion takes a depth bound `d` with the precondition that the expansion from 0 halts within it. This stands in for the source's unstated requirement that parent links be acyclic. Cyclic input, on which the source recurses forever, is outside the model.
- AntiSpam: `SdkCheck` has the same body as `AppCheck` and is modelled once, as `AntiSpam.AppCheck`. `InitAntiSpam` options, the service domain and `os.Getenv` are not modelled; the default configuration is. The token server's reply arrives already decoded.
- AntiSpam.AppCheck: runs `timeControl` as written, with the age wrapping at 64 bits (see Findings). `AntiSpam.TimeControl` is the corrected check, and `AntiSpam.PassedRequestIsRecent` states the bound that holds whenever the age does not wrap.
- AntiSpam.GetRandomKey: keeps the 64-bit wrap-around of the expiry subtraction as written.
- AntiSpam: `ErrorToken` and `ErrorLackTimeParam` are declared but never returned by the source, so they have no part in the model.
- Go map iteration order is not modelled. An object bind reports "invalid pack type" without naming the failing tag, because which member fails first depends on that order. `signVerify` sorts its keys, so it does not depend on the order.
- McPackRead: Go slices are checked against their capacity, not their length. The model reports any read past the buffer's length as the out-of-bounds outcome.
- McPackUnmarshal: `mcpack.Marshal`, the struct-level `Unmarshal`, `writeObject` (a stub returning an empty item) and `buildBufferFromObject` are the encoder side or a stub, so they are not modelled. `V2Array.Size` is not modelled either.
- Floating point: float items keep their raw bits. The `math.Ceil` in Redis chunking is an integer ceiling.
- RedisString.SetCommand: the variadic expiry is a sequence, so a nil expiry and an explicitly empty one both read as no expiry and give a plain SET. Go tests `expire == nil` (string.go:94), so `Set(ctx, k, v, []int64{}...)` panics at `expire[0]` (string.go:97); that panic is not modelled, and `RedisString.Set` inherits the same reading.
- RedisString: `MSet`, `Append`, `Incr`, `IncrBy`, `IncrByFloat`, `Decr` and `DecrBy` pass their arguments straight to the server, so they are not modelled.
- The `mget` loop that converts the keys to `interface{}` values is not modelled. The keys go to the server as they are.
- Zos: the configured `MaxConnsPerHost` never reaches the transport. `Zos.MaxConnsPerHostIgnored` states this, and the model keeps it.
- ZosBucket: `UploadLocalFile` (a file read), `IsExist`, `GetObjectList`, `FileIsExist`, `DeleteFile`, `GetTempKeys` and `methodPath` (the URL text of a proxy call) are HTTP calls with no decision logic beyond the reply mapping. They are not modelled; that mapping is modelled as `Zos.CheckError` and `Zos.CheckExist`.
- ZosBucket.UploadFileContentChecked: is not in the source. It is `UploadFileContent` with the corrected multipart upload of the Findings table; `ZosBucket.UploadFileContent` follows the code.
- ZosBucket.GetUrlByFileNames: a reply that passes checkError but whose JSON does not decode gives the decode error only. Go returns the partly filled map together with that error (bucket.go:296-297); the model does not keep that partial map.
- ZosBucket.UploadContent: the 5 GiB size guard tests the size the caller declares, and the model states it so.
- Cron: `Recover`, `DelayIfStillRunning` and `SkipIfStillRunning` are concurrency wrappers, so they are not modelled. The chain is generic in the job type, and a wrapper is any function from job to job.
- Rmq: `newProducer`, `start`, `stop` and `sendMessage` are RocketMQ client lifecycle calls. The send's outcome is an input.
- Helpers: `NewError` only builds an error value, so it is not modelled.

## Findings

| source | as written | input that shows it | evidently intended | confidence | as-written member | corrected member |
|---|---|---|---|---|---|---|
| pkg/golib/v2/kms/cipher.go:114-118 | `kmsDev.Decrypt` compares the length of the base64 text with the prefix length. It then slices the decoded bytes at the prefix length. | A ten-byte prefix and the text "AAAAAAAAAAAA": twelve characters pass the guard but decode to nine bytes, so the slice panics. | The guard tests the decoded bytes it protects. | not executed | Kms.DevDecrypt, Kms.DevDecryptPanics | Kms.DevDecryptChecked, with Kms.DevRoundTrip and Kms.DevDecryptAgrees |
| pkg/golib/v2/kms/cipher.go:73-81 | `kms.IsEncrypt` parses the length field with ParseInt and does not reject a negative value. | An envelope with length field "-0000001": the bound check passes (22 bytes are needed) and `cipher[23:22]` panics. | A negative length makes the text "not encrypted". | not executed | Kms.IsEncrypt, Kms.NegativeLengthPanics | Kms.IsEncryptChecked |
| pkg/golib/v2/base/http.go:526-555 | `do` reports an error only when a retry was still wanted at exit. A transport error that the policy declines to retry is lost. | A custom policy that never retries and a transport that fails: `do` returns no response and no error. | The last transport error is returned when no retry is pending. | not executed | Http.DoOf, Http.Do, Http.DoDropsTransportError | Http.DoChecked, with Http.DoCheckedAgrees |
| pkg/golib/v2/zos/bucket.go:147 | `multiUpload` passes the full object key, which already carries the directory, to `GetUrlByFileName`, and that adds the directory again (lines 256-259). | UploadFileContent with directory "d", file name "x" and no type or version, on content longer than the upload chunk: the parts go to "d/x.jpg" but the URL is asked for "d/d/x.jpg". | The URL is asked for the object just uploaded. | not executed | ZosBucket.MultiUploadOf, ZosBucket.MultiUpload, ZosBucket.MultiUploadAsksDoubledKey, ZosBucket.MultipartURLDoublesDirectory | ZosBucket.MultiUploadChecked, with ZosBucket.CheckedURLNamesObject |
| pkg/antispam/antispam.go:285-290 | `timeControl` computes `now - t` in 64-bit Go `int`, which wraps around. | `_t_` = "-9223372036854775808", now 1700000000, maxTime 300, switch on: the difference wraps to a negative number and the request passes. | A client time further back than maxTime is rejected as too old. | not executed | AntiSpam.TimeControlAsWritten, AntiSpam.TimeControlWrapsAround | AntiSpam.TimeControl, with AntiSpam.TimeControlAgrees |
