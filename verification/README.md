# Myth's filters, verified

[Myth](https://github.com/patrick-gu/myth) answers HTTP requests with *filters*: small matchers that are
combined with `and`, `or`, `then`, `handle`, `recover`, `recover_forward`, `receive` and `untuple`, each of
them run by a hand-written future that overwrites its own state when it is polled. This project models that
engine in Dafny and proves what its combinators promise.

- `Filters.dfy` has the filter trees and `Eval`, the big-step meaning of running one: a new path index, a new
  body, and success, error or forward.
- `Futures.dfy` has the machines: one class whose `stage` field is the enum of every future in the library,
  polled in place, with the `Option`s that are taken out and the request state that is handed along. `Run`
  drives a filter to the end. Whatever pattern of `Pending` the handlers and the body stream answer with, the
  result is `Eval`, it takes one poll more than there were pending leaves, and the request state that went in is
  the one that comes out; on the way exactly one machine holds it. The pattern is the schedule in the `Context`
  passed to every poll: any finite sequence of answers, one for each time a leaf is asked.
- `Requests.dfy`, `Bodies.dfy` and `Buffers.dfy` have the request state with its path index, the reading of the
  body, and the buffer of chunks that a body is handed out as.
- `Paths.dfy`, `Decoding.dfy`, `Sanitize.dfy`, `Redirects.dfy` and `RecoverRoutes.dfy` have the path cursor,
  percent decoding and UTF-8, file paths, the redirects of `end()`, and what `recover` does to a route.
  `Leaves.dfy` says what the filters at the leaves of a tree make of a request.
- `Forwardings.dfy` and `OrTrees.dfy` have the methods collected by alternatives and the `Allow` header.
- `Layers.dfy` has a filter tree as seen from one filter inside: the combinators around it, and from where the
  filter inside them runs. `Errors.dfy`, `ErrorRouting.dfy`, `ForwardRouting.dfy` and `SuccessRouting.dfy` follow
  an error, a forward and a success from there on their way out.
- `Tuples.dfy` and `Typing.dfy` have the values passed along and the declared tuple types.
- `RunLaws.dfy`, `Equivalence.dfy`, `Algebra.dfy` and `Laws.dfy` hold what is true of every run of every tree:
  where the index can stand, what body reads see, when one filter can replace another, the laws of `and` and
  `or`, and that rewriting a typed tree by these laws, at any places and in any order, keeps what it does.
- `Cors.dfy`, `ConfigBuilder.dfy` and `OriginGuard.dfy` have origin checking, preflight replies, what the
  configuration builder makes of its calls, and what origin checking guarantees about the filter behind it.

Two results are about where a law stops. `and` distributes over `or` on typed filters for a given body exactly if
the body can be read again: a body that is still going to fail gives its cause only once, and running the first
filter twice shows this (`Algebra.DistributionExactly`). And `recover` puts the path index back on plain success as
well, so putting it around the last filter of a working route breaks the route, whatever the function, exactly if
that filter takes something from the path and the path is not the root (`RecoverRoutes.RecoverBreaksRoute`, with
`/a/b` as the example in `RecoverRoutes.RecoverBreaksAB`).

## Model

| member | source | states |
|---|---|---|
| Futures.Run | src/service.rs:95-101 | driving any filter under any finite pattern of pending answers gives exactly the big-step result (outcome, index, body) in the same request state, in one poll more than pending leaves |
| Futures.FilterFuture.Poll | src/filter/mod.rs:38-48 | a pending future stays valid and promises the same result; a ready one returns its own request state with that result and holds none any more; one pending leaf per `Pending`, none per `Ready` |
| Futures.FilterFuture.PollInner | src/filter/or.rs:108-111 | polling the inner future leaves the outer state alone and either stays pending or yields the inner promise |
| Futures.FilterFuture.PollAndFirst | src/filter/and.rs:91-122 | polled while its first filter runs, `and` keeps its promise: the second filter on the held-back input with the first success in front, the first error, or the first forward with the held-back input |
| Futures.FilterFuture.PollAndSecond | src/filter/and.rs:123-129 | polled while its second filter runs, `and` keeps its promise: the first success with the second appended, or the second's error or forward |
| Futures.FilterFuture.PollOrFirst | src/filter/or.rs:100-131 | polled while its first filter runs, `or` keeps its promise: the first success or error, or the second filter from the index saved at the start |
| Futures.FilterFuture.PollOrSecond | src/filter/or.rs:132-154 | polled while its second filter runs, `or` keeps its promise: on a forward both forwardings combined and the saved index, otherwise the second outcome |
| Futures.FilterFuture.PollThenFirst | src/filter/then.rs:125-158 | polled while its first filter runs, `then` keeps its promise: the second filter on prefix and success joined, the first error, or a forward with the prefix |
| Futures.FilterFuture.PollThenSecond | src/filter/then.rs:159-161 | polled while its second filter runs, `then` keeps its promise: a forward gives back the prefix, otherwise the second outcome |
| Futures.FilterFuture.PollHandle | src/filter/handle.rs:96-132 | polled in either state, `handle` keeps its promise: the handler's result on a success, otherwise the filter's outcome, with the request state held while the handler runs; it is pending exactly while the handler's future waits |
| Futures.FilterFuture.PollRecoverFilter | src/filter/recover.rs:147-184 | polled while its filter runs, `recover` keeps its promise: the index put back on success and before the function runs on an accepted error, other errors and forwards as they are |
| Futures.FilterFuture.PollRecoverFunc | src/filter/recover.rs:185-203 | polled while its function runs, `recover` keeps its promise: the function's success or error at the saved index, and pending exactly while the function's future waits |
| Futures.FilterFuture.PollRecoverForward | src/filter/recover_forward.rs:123-171 | polled in either state, `recover_forward` keeps its promise: an accepted error becomes what the function makes of it, at the index it was left at; it is pending exactly while the function's future waits |
| Futures.FilterFuture.PollReceive | src/filter/receive.rs:102-121 | `receive` keeps its promise: the carried tuple in front of the success or of the forwarded input |
| Futures.FilterFuture.PollWrapped | src/filter/untuple.rs:69-74 | `untuple` and the CORS decorations keep their promise: a success is unpacked or decorated, everything else passes |
| Futures.FilterFuture.PollLeaf | src/body.rs:94-110 | the body future keeps the request state while the body is pending, exactly while the stream waits before its end or failure, and gives it back with the read result; other leaves are ready at once |
| Futures.FilterFuture.UnfinishedHoldsOne | src/filter/handle.rs:81-86 | in every unfinished chain of futures exactly one machine holds the request state |
| Futures.FilterFuture.SpentHoldsNone | src/filter/handle.rs:127-130 | once it has been handed back, no machine of the chain holds it |
| Futures.Execute | src/filter/mod.rs:42-47 | a new future holds the given request state and promises the big-step result from the state it started in |
| Futures.ExecuteLeaf | src/filter/ready.rs:62-74 | leaves do their work on the request state when started |
| Futures.ExecuteReceive | src/filter/receive.rs:69-80 | the input is split at the declared arity |
| Futures.ExecuteCors | src/security/origin.rs:405-463 | a request is answered in place of the filter or runs it, as the gate decides |
| Filters.Eval | src/filter/or.rs:112-147 | on every outcome of every tree the index has moved forward or is where it was, and is within the path |
| RunLaws.CursorStaysAtBoundary | src/request.rs:107-122 | over every run of every tree the index stays at 0, the end or a slash, between the entry index and the end |
| RunLaws.CursorBetweenCharacters | src/path.rs:140-152 | on a well-formed path no run of any tree leaves the index inside a character: both parts of the path are well-formed |
| RunLaws.RunReadsInTurn | src/body.rs:94-110 | all body reads of a run, through all branches tried, are successive reads of one body |
| RunLaws.EveryReadAgrees | src/body.rs:94-110 | every body filter in a run succeeds with all the chunks of an intact body; on a failing body the first fails with the cause, the later ones without one |
| Bodies.DrainMeans | src/request.rs:73-105 | what is read of a stream is all its data before the first failure, in order, and that failure's cause |
| Leaves.BodyArrives | src/body.rs:94-110 | the body filter on a fresh request hands out all the data that the stream delivers, without empty chunks, or fails with the cause of its first failure |
| Bodies.ReadsHistory | src/request.rs:90-103 | any number of reads: the same chunks each time, or the cause once and then errors without one |
| Requests.RequestState.PollBody | src/request.rs:73-105 | a read is pending exactly if the stream waits before its end or failure; pending reads are not observable, a finished one equals the whole stream without empty chunks and its length, and finished bodies never change |
| Buffers.BytesBuf.Advance | src/body.rs:131-144 | the content is the old content without the dropped prefix, and no empty chunk is left in front |
| Buffers.BytesBuf.Read | src/body.rs:147-155 | the smaller of buffer and remaining bytes is copied from the front, the rest of the buffer is untouched, and the loop ends even when it only drops empty chunks |
| Buffers.BytesBuf.Remaining | src/body.rs:123-125 | the stored length is the number of bytes left |
| Buffers.BytesBuf.FrontChunk | src/body.rs:127-129 | the front chunk is a prefix of the content |
| Buffers.UsesConserve | src/body.rs:131-155 | the pieces consumed by any mix of `advance` and `read`, followed by what is left, are the content |
| Buffers.UseAll | src/body.rs:131-155 | any mix of `advance` and `read` on a buffer, however it is cut into chunks, returns what it returns on the flat content and leaves the content without the consumed beginning |
| Buffers.ReadsReach | src/body.rs:147-155 | reads never panic, return every piece they consume, and reach as far as their slices together |
| Buffers.ReadOut | src/body.rs:94-110 | polling a body to its end and reading the buffer slice by slice rebuilds the bytes of the body as far as the slices reach, or gives its failure |
| Paths.SegmentStep | src/path.rs:121-135 | a segment step takes an optional slash and the slash-free segment, moves forward and stops at a slash or the end |
| Paths.WalkIsSplit | src/path.rs:121-135 | iterating segments visits exactly the split of the path on slashes, without a leading slash and one trailing empty piece |
| Paths.WalkRebuilds | src/request.rs:107-117 | the visited segments joined by slashes rebuild the path up to one trailing slash |
| Decoding.LossyKeepsExactlyValid | src/path.rs:110 | lossy decoding always gives well-formed text, and changes nothing exactly on well-formed text |
| Decoding.DecodeUndoesEncode | src/path.rs:110 | percent decoding undoes every percent encoding that escapes the percent sign, in upper and lower case |
| Decoding.PercentDecodeExactly | src/path.rs:110 | every text is written in exactly one way with plain bytes and escapes, and percent decoding reads it so, malformed percent signs included |
| Decoding.EncodedSegmentReads | src/path.rs:110 | a segment that percent-encodes a well-formed text reads as that text |
| Decoding.LossyKeepsChar | src/path.rs:110 | lossy decoding keeps every encoded character and goes on after it |
| Decoding.LossyReplacesStretch | src/path.rs:110 | where no character begins, the longest stretch that could have become one, or one byte, is replaced by U+FFFD, and decoding goes on after it |
| Leaves.EncodedSegment | src/path.rs:81-118 | however the next segment is percent-encoded, a parameter is the encoded text, a literal matches exactly if it is that text, and the index moves to the end of the segment |
| Leaves.TextAsSegment | src/path.rs:81-118 | any non-empty well-formed text can be sent as a segment, its slashes encoded, and is received as it was |
| Leaves.MethodMeans | src/method.rs:28-40 | a method filter matches exactly its own method and otherwise says that this method is allowed |
| Leaves.EndMeans | src/path.rs:137-154 | `end()` succeeds exactly on the root and at the end, redirects exactly before a last slash, whatever the method, with the path before it as location, and otherwise does not match |
| Leaves.TailMeans | src/path.rs:197-214 | `tail()` takes all that is left of the path, undecoded |
| Decoding.ValidExactlyEncoded | src/path.rs:220-229 | text is accepted as UTF-8 exactly if it is the encoding of a sequence of characters |
| Sanitize.SanitizePath | src/path.rs:219-267 | the loop computes the declarative reading: nothing if any piece is refused, otherwise the non-empty pieces |
| Sanitize.SanitizeIsFixed | src/path.rs:233-266 | refused exactly if a piece breaks a rule; components are plain names, and sanitizing their join again changes nothing |
| Sanitize.NonEmptySnoc | src/path.rs:261-263 | exactly the non-empty pieces become components, in order |
| Leaves.EncodedFilePath | src/path.rs:219-267 | a file path is judged by what it decodes to: refused exactly if that is ill-formed or a piece begins with `.` or `*`, ends with `:`, `>` or `<`, or has a backslash or NUL in it |
| Leaves.DotDotRefused | src/path.rs:233-248 | a leading `../` is refused even if all of it, the slash too, is percent-encoded |
| Redirects.RouteMeans | src/path.rs:81-119 | a route of literals and parameters ends as its steps lead |
| Redirects.RouteRedirects | src/path.rs:137-154 | a route redirects if and only if its steps match and lead to just before a trailing slash, on any path but the root; the location is the path without that slash |
| Redirects.StepsWithoutSlash | src/path.rs:121-135 | without the trailing slash the same steps match, unless the last segment is empty |
| Redirects.RedirectTakesOneHop | src/path.rs:137-158 | a redirect's location is the path without its trailing slash and not empty; asking again succeeds exactly if the last segment is non-empty, always so after a literal, and is otherwise not found |
| Tuples.Append | src/generics/tuples.rs:86-89 | moving elements one by one is concatenation |
| Tuples.Remove | src/generics/tuples.rs:91-97 | the ending of the declared arity is taken off |
| Tuples.AppendRemove | src/generics/tuples.rs:53-60 | `remove` is the two-sided inverse of `append` |
| Typing.ForwardGivesInputBack | src/filter/then.rs:137-162 | in every well-typed tree a forward carries exactly the input and a success has the declared type |
| Typing.TypedTreesNeedNoFallback | src/generics/tuples.rs:82-97 | in every run of a well-typed tree each tuple that is taken apart has the arity it is taken apart at |
| Equivalence.DeadIndexUnobservable | src/filter/or.rs:121-148 | filters of one type that agree, up to the index left on an error or forward, wherever runs can start and on the inputs of their type, can stand for each other in any typed tree |
| Equivalence.AndCongruence | src/filter/and.rs:104-120 | equivalent parts make equivalent `and`s, with the same types |
| Equivalence.OrCongruence | src/filter/or.rs:112-148 | equivalent parts make equivalent `or`s: the second filter only ever gets the input of the first back |
| Equivalence.ThenCongruence | src/filter/then.rs:138-161 | equivalent parts make equivalent `then`s: the joined input has the type of the second filter |
| Equivalence.RecoverCongruence | src/filter/recover.rs:155-202 | equivalent filters are equivalent under `recover` |
| Equivalence.ReceiveCongruence | src/filter/receive.rs:69-121 | equivalent filters are equivalent under `receive`, where they get only the end of the input |
| Algebra.OrAssociates | src/filter/or.rs:100-156 | `or` is associative in outcome, index and body |
| Algebra.AndAssociates | src/filter/and.rs:91-131 | `and` is associative in outcome, index and body |
| Algebra.AnyIsUnit | src/basic/mod.rs:16-19 | `any()` is a two-sided unit of `and` |
| Algebra.NeverIsUnit | src/basic/mod.rs:21-26 | `never()` is a two-sided unit of `or`, up to the index left on a forward |
| Algebra.Replay | src/filter/or.rs:121-128 | running a filter again from the same index repeats outcome and index, if the body can be read again or is not read |
| Algebra.AndDistributesOverOr | src/filter/or.rs:121-148 | `a.and(b.or(c))` is equivalent to `a.and(b).or(a.and(c))` if the body can be read again or `a` does not read it |
| Algebra.DistributionExactly | src/request.rs:90-103 | for a given body distribution holds for all typed filters and inputs exactly if the body is not still going to fail |
| Laws.LawIsEquivalence | src/filter/or.rs:100-156 | the grouping, unit, idempotence and distribution laws relate filters that are typed together, with the same types, and equivalent; the last two on bodies that can be read again or filters that do not read |
| Laws.RewritingKeepsMeaning | src/filter/and.rs:91-131 | any sequence of uses of these laws, anywhere in a typed tree and in either direction, gives an equivalent typed tree |
| RecoverRoutes.NextStartsBack | src/filter/recover.rs:156-202 | whatever follows `recover` starts at the index the recovered filter had started from, and takes the same segments again |
| RecoverRoutes.RecoverForgetsPath | src/filter/recover.rs:156-162 | prefix, `recover` and `end()` succeed together exactly if the first two do and the path is the root or ends where the prefix left the index |
| RecoverRoutes.RecoverBreaksRoute | src/filter/recover.rs:156-202 | `recover` around the last filter of a working route leaves it working, whatever the function, exactly if that filter takes nothing from the path or the path is the root |
| RecoverRoutes.RecoverBreaksAB | src/path.rs:137-158 | `/a/b` matches `literal("a")`, `param_str()`, `end()`, and no longer with any `recover` around the parameter |
| OrTrees.OrGroupingIrrelevant | src/filter/or.rs:100-156 | alternatives in the same order give the same result however they are grouped |
| OrTrees.ForwardsAreGenuine | src/method.rs:28-40 | every method mask that a run forwards names at least one method |
| OrTrees.OrTreeReply | src/forward.rs:23-33 | 404 exactly if all alternatives are not found, otherwise 405 whose Allow value reads back as exactly the union of attempted methods, each once, never empty |
| OrTrees.OtherMethodGets405 | src/method.rs:19-42 | a table of routes by method, in any grouping, its rows with any prefixes that do not read the body, handlers and recovering filters, answers any other method with 405 and an Allow header listing exactly the table's methods |
| OrTrees.GuardedForwards | src/filter/handle.rs:116-119 | a row of such a table forwards a request with another method, naming exactly the method of the row |
| Forwardings.CombineIsUnion | src/forward.rs:36-46 | combination is union on methods and not found only for two not founds |
| Forwardings.CombineAssociative | src/forward.rs:36-46 | combination is associative |
| Forwardings.IntoHeaderValue | src/forward.rs:65-89 | the string built step by step is the list of the mask's names and reads back as that list |
| Forwardings.AllowListsEachMethodOnce | src/forward.rs:65-89 | the names read back are exactly the methods of the mask, each once |
| ErrorRouting.ErrorsTravelOutwards | src/errors.rs:30-44 | in any nesting of combinators, in first or second place, an error meets the layers once each from the inside out; each accepting layer puts its function's outcome in its place, and an error of that function goes on to the layers further out, until it is none any more or is outside |
| ErrorRouting.UncaughtErrorPasses | src/filter/recover.rs:174-177 | an error no layer accepts is the outcome of the whole nesting, with the state it was made with |
| ErrorRouting.InnermostCatches | src/filter/recover.rs:164-177 | the innermost accepting layer gets the error unchanged, and what its function makes of it only goes further out |
| ErrorRouting.RecoversItsType | src/errors.rs:30-44 | `recover` calls its function exactly on errors of its type, or on all if it is for the boxed error, and comes out with the value or the error that the function returns |
| ErrorRouting.ForwardsItsType | src/filter/recover_forward.rs:123-171 | `recover_forward` does the same with the forwarding or the error that its function returns, leaving the index alone |
| ForwardRouting.ForwardPasses | src/filter/handle.rs:116-119 | without alternatives around it, a filter that forwards makes the whole tree forward with the same forwarding and the same state |
| ForwardRouting.ForwardMeetsOr | src/filter/or.rs:112-148 | an alternative that forwards leaves the outcome to the other, or both forward together: the methods of both, not found only if both are, and the index put back |
| ForwardRouting.ForwardsAddUp | src/forward.rs:36-46 | in any nest, the methods named by a forward that comes out are exactly those of the filter inside and of the alternatives beside it, and it is not found exactly if all are |
| SuccessRouting.SuccessTravelsOutwards | src/filter/handle.rs:96-115 | in any typed nest, what comes out of a success is what its values become layer by layer: appended, handed to handlers, unpacked or decorated, with the index put back by `recover` |
| Cors.TwoScansMeanPadded | src/security/origin.rs:526-558 | the comma scan and the blank scan together accept exactly one allowed name with blanks around it |
| Cors.PreflightImpl | src/security/origin.rs:493-561 | the nested scans with early returns compute the plain decision, and add the origin header exactly if it is allowed by name |
| Cors.Preflight | src/security/origin.rs:481-491 | the reply has the decided status and the advertised headers |
| Cors.PreflightHeaders | src/security/origin.rs:302-353 | the header map built by insertion is the configured list |
| Cors.JoinToHeaderValue | src/security/origin.rs:577-585 | the loop joins all values with comma and blank |
| Cors.AdvertisedIsConfigured | src/security/origin.rs:322-332 | reading back the advertised methods and headers gives the configured ones |
| Cors.SharingIsConfigured | src/security/origin.rs:334-353 | the reply allows credentials exactly if configured, its exposed headers and seconds read back as configured, `Vary` names the origin exactly if origins are listed, and there are no other headers |
| Cors.PaddedMeans | src/security/origin.rs:526-558 | the names accepted in a request are the allowed ones in any letter case with any blanks around |
| Cors.SameLower | src/security/origin.rs:526-558 | names are taken as the same exactly if they differ at most in the case of ASCII letters |
| Cors.PreflightDecision | src/security/origin.rs:493-574 | 204 exactly if the origin is allowed, the method is advertised, and each request header value is one advertised name with optional blanks; 400 exactly if the method is missing; a comma list is never accepted |
| Cors.PreflightPredictsRequest | src/security/origin.rs:405-463 | an accepted preflight means the announced request reaches the filter with the advertised origin, and conversely when no headers are announced |
| Cors.SharedResponse | src/security/origin.rs:610-628 | whatever headers the filter set, a shared response names exactly the checked origin, adds credentials and exposed headers as configured, and keeps all other headers |
| Cors.DecimalRoundTrip | src/security/origin.rs:345-350 | the max-age header reads back as the configured number of seconds |
| Cors.DecideGate | src/security/origin.rs:411-463 | the wrapped filter runs exactly if the request names no origin, or a configured origin and a configured method; any other request is answered, with 403 unless it is a preflight request |
| OriginGuard.RefusedNeverRuns | src/security/origin.rs:423-462 | a refused request gets the same answer whatever filter is wrapped, reads no body and leaves the request state alone; the answer is 403 unless it is a preflight request, and never names an origin that is not configured |
| OriginGuard.AdmittedIsShared | src/security/origin.rs:411-463 | an admitted request runs the wrapped filter in place; errors, forwards and the state come out as they are; a response keeps its status and other headers, names exactly the request's origin, or all when all are configured, has credentials and exposed headers as configured, and tells caches when the origin matters |
| Cors.BuiltConfigsAreValid | src/security/origin.rs:123-300 | every configuration that the builder makes and `apply` accepts is valid: tokens only, no OPTIONS, lower-case header names |
| ConfigBuilder.OriginsAsCalled | src/security/origin.rs:123-144 | all origins are allowed exactly if `any_origin` was called and `origin` not after it; otherwise those named since the last `any_origin` |
| ConfigBuilder.MethodsAsCalled | src/security/origin.rs:164-176 | the methods are exactly those named, each once, and credentials are allowed exactly if that was called |
| ConfigBuilder.AllowedAsCalled | src/security/origin.rs:195-204 | the allowed header names are exactly those given, in lower case, each once |
| ConfigBuilder.ExposedAsCalled | src/security/origin.rs:221-230 | the exposed header names are exactly those given, in lower case, each once |
| ConfigBuilder.AgeAsCalled | src/security/origin.rs:247-250 | the maximal age is the last one that was set |
| Http.HeaderIsFirst | src/request.rs:34-40 | the value of a request header is that of its first entry |

## Left out

- Sockets, TLS, the server, services and shutdown: input and output.
- Wakers, pinning, `Send` and `Sync`, `DynamicFilter`, `Arc` and the macros for arities: no effect on results.
- That a pending future is woken again: only the polls that happen are modelled.
- Handlers are functions of their arguments; side effects and state inside a handler are not modelled.
- The limit of twelve tuple elements, and all of typing but arities, tuples inside tuples and responses.
- On trees that Rust's types would refuse, the evaluator gives the whole input for a too short one and leaves a non-tuple alone in `untuple`; `Typing.TypedTreesNeedNoFallback` shows that typed trees never come there.
- Request header, query, JSON, form and cache filters, `param` with its parser, `uri()`, `method()`: thin leaves over library parsers.
- Response bodies and their default headers, logging, HSTS: plain data.
- The `bytes` crate is not part of this model; `copy_to_slice` is taken to copy chunk by chunk and advance after each piece, as its default implementation does.
- The configuration builder consumes and returns its receiver, so it is modelled on values; a call that panics is one that `Accepted` excludes.
- The length of a body is unbounded here, so overflow of its counter is not modelled.
- Windows drive letters and other platform rules of `PathBuf`: a path is a list of components.
- Whether a URI parser would accept a path: a path is any text, including the empty one.
- `split_whitespace` is read as splitting at spaces and tabs, the only white space in a value that `to_str` accepts.
- In a `HeaderMap` the order between different names is the order of insertion here.
