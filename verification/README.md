# robot.cpp: a verified model of its protocol, codecs and caches

robot.cpp serves robot policies over a socket. This project models the parts of it that are algorithms rather than
tensor plumbing, in the form the source gives them (loops over buffers, objects whose fields change in place), and
proves what they promise.

| part | files | main results |
|---|---|---|
| wire protocol | `Bytes`, `Faults`, `ProtocolSpec`, `Protocol`, `ProtocolProofs`, `Layouts` | requests, responses and headers: encoder and decoder are inverse bijections, prefix-free, with every field at its offset |
| stream and conversation | `Transport`, `SessionSpec`, `Session`, `SessionProofs` | for any fragmentation and any failure the session loop does what `Run` says; safety of whole pipelined sessions |
| clients | `Client`, `EndToEnd`, `PythonClient`, `PythonConversation` | what the model sees is what the client passed, what the client gets is what the model returned; the Python client sends and reads the same bytes |
| FAST action codec | `Utf8`, `ByteLevel`, `Dct`, `FastLimits`, `TokenMap`, `FastSpec`, `FastCodec`, `FastProofs` | both UTF-8 decoders against the Unicode Standard, the 256-entry alphabet, two constructors that agree, the exact limits, an orthonormal inverse transform |
| SmolVLA caches | `AttentionMasks`, `PrefixFlow`, `Causality`, `ExpertState`, `FreshInputs`, `ExpertRuntime` | every prediction equals one rebuilt from scratch; no dangling tensor, no leak; padding never reaches an action, everything else that may does |
| image arithmetic | `SmartResize`, `IntegerSizes`, `Filters`, `FilterTable`, `Resample`, `Preprocess`, `Connector` | the rounding rule without roots and exactly when it meets its bounds, the fixed-point resampler byte by byte, the pixel shuffle as space to depth |
| temporal ensemble | `Ensemble` | over any run of steps and resets each old chunk speaks for the present, and counts for more the more it agrees |

`Arith` and `Reals` hold the facts about products that the solver needs help with, and the integer square root.

How to read it. A method that follows a loop of the source is proved against a function (`Run`, `DecodeRequest`,
`LossyDecode`, `Fresh`, `Resized`, ...), and the properties are proved about that function; what such a function
computes is also stated in plain arithmetic, byte for byte or cell for cell, without using it. Errors are values
(`Fault`, `Outcome`, `Option`), never preconditions. Sockets, allocation and the language model are
nondeterministic or arbitrary parameters: a statement holds for whatever they do. In `ExpertRuntime` a tensor has an
identity, a name and a lifetime, freeing a context ends the life of its tensors, and a graph is the set of identities
it captured; the contents it computes are an arbitrary function of what it reads.

Premises, each needed and each stated where it is used:
- Row lengths are multiplied in 32 bits, so claims about sizes ask for `3 * width < 2^32`
  (`EndToEnd.RowsAreWholeExactlyWhenUnwrapped` shows that nothing weaker is enough).
- Buffers are no larger than a `size_t` can say, and a caller's image memory reaches the end of its last row.
- The sine and cosine laws of `Dct.Lawful`, a square root that squares back, an exponential that is positive (and, where
  weights are compared, growing) and a norm that is not negative; everything over `double` is in exact real arithmetic.
- The layout of sequence ids takes the last token for the state token; `PrefixFlow.LastTokenMustBeState` says exactly
  when that is harmless.

Where the code does not do all that one might read into it, the model keeps the code and states the exact condition:
smart resize may miss either bound and may count more tokens than an `int` holds (`IntegerSizes.BoundsExactly` and
`TokensExactly` give the integer tests, with `SmartResize.ShrinkMayOvershoot` and its siblings as examples),
`AdaptiveEnsembler` alone may raise on a chunk that passed its
check (`Ensemble.NewestCheckIsNotEnough`, and `AlignedMeans` for when it does not), `prepare_attention_cache` keeps old
masks when it is called twice (`ExpertRuntime.Expert.PrepareAttentionCache`; the engine always resets the runtime
first), and the two clients report different values under a repeated metric name (`PythonClient.LookupsMean`).
The comment in `smolvla_engine.cpp` line 838 says that padding sees nobody; by the rule it states, padding sees padding
(`PrefixFlow.VisibilityIs`).

## Model

| member | source | states |
|---|---|---|
| Bytes.FromLEOfLE | robot_server/protocol.cpp:11-26 | Reading back the low `n` little-endian bytes of any value gives the value modulo 256^n. |
| Bytes.LEOfFromLE | robot_server/protocol.cpp:42-75 | Writing back the value read from little-endian bytes gives those bytes. |
| Bytes.DecimalIs | robot_client/cpp/model_client.cpp:79 | The digits written for `n` are the one numeral, without leading zeros, whose value is `n`. |
| Protocol.ByteVector.PutU16 | robot_server/protocol.cpp:11-14 | Appends exactly the two little-endian bytes of the value. |
| Protocol.ByteVector.PutU32 | robot_server/protocol.cpp:16-20 | Appends exactly the four little-endian bytes of the value. |
| Protocol.ByteVector.PutU64 | robot_server/protocol.cpp:22-26 | Appends exactly the eight little-endian bytes of the value. |
| Protocol.Reader.U16 | robot_server/protocol.cpp:46-53 | Succeeds iff two bytes remain; returns their value and moves past them, else stays put. |
| Protocol.Reader.U32 | robot_server/protocol.cpp:54-64 | Succeeds iff four bytes remain; returns their value and moves past them, else stays put. |
| Protocol.Reader.U64 | robot_server/protocol.cpp:65-75 | Succeeds iff eight bytes remain; returns their value and moves past them, else stays put. |
| Protocol.Reader.Bytes | robot_server/protocol.cpp:92-99 | Succeeds iff that many bytes remain; returns them and moves past them. |
| Protocol.ValidateF32Array | robot_server/protocol.cpp:126-134 | The loop reports the fault exactly when some value has all exponent bits set. |
| Protocol.ValidateImages | robot_server/protocol.cpp:136-160 | The loop reports the first image at fault and its first fault, or none. |
| ProtocolProofs.ImagesErrorMeans | robot_server/protocol.cpp:136-160 | The image check passes iff every image passes. |
| Protocol.WriteHeader | robot_server/protocol.cpp:164-176 | Writes the 32 bytes of the header layout. |
| Protocol.ReadHeader | robot_server/protocol.cpp:178-190 | Reads the header the layout describes, or reports a short one. |
| ProtocolProofs.HeaderCodec | robot_server/protocol.cpp:164-190 | On 32 bytes, encoding gives `s` iff decoding `s` gives the header: a bijection. |
| Protocol.WriteRequest | robot_server/protocol.cpp:223-272 | Fails iff a check of the specification fails, with its fault and nothing written; else the output is exactly the request layout. |
| Protocol.ReadRequest | robot_server/protocol.cpp:274-370 | The reader loop returns exactly what the request grammar yields on the payload, fault for fault. |
| ProtocolProofs.RequestCodec | robot_server/protocol.cpp:223-370 | A request encodes to `p` iff `p` decodes to that request: inverse bijections between accepted requests and accepted payloads. |
| ProtocolProofs.RequestBytesInjective | robot_server/protocol.cpp:223-272 | Two requests with one byte string are equal, whether or not they pass the checks: the layout is unambiguous. |
| Protocol.WriteResponse | robot_server/protocol.cpp:372-407 | Fails iff a check of the specification fails, with nothing written; else the output is exactly the response layout. |
| Protocol.ReadResponse | robot_server/protocol.cpp:409-450 | The reader loop returns exactly what the response grammar yields, fault for fault. |
| ProtocolProofs.ResponseCodec | robot_server/protocol.cpp:372-450 | A response encodes to `p` iff `p` decodes to it, on bit patterns: inverse bijections. |
| ProtocolProofs.RequestPrefixFree | robot_server/protocol.cpp:223-370 | An encoded request cut short anywhere is refused; with anything after it, it is refused as having trailing bytes. |
| ProtocolProofs.ResponsePrefixFree | robot_server/protocol.cpp:372-450 | The same for responses. |
| Layouts.HeaderLayout | robot_server/protocol.cpp:164-176 | Which header field stands at which of the 32 bytes, little-endian. |
| Layouts.FrameLayout | robot_server/session.cpp:40-52 | A frame opens with the bytes of "SVLA", version 4 and header size 32; its fields and its payload follow at fixed offsets. |
| Layouts.ParseMeans | robot_server/protocol.cpp:192-210 | From the bytes alone: a stream starts with too little, with the first fault of its header, or with a frame of the length it states. |
| Layouts.RequestHead | robot_server/protocol.cpp:246-249 | The four counts of a request at offsets 0, 4, 8 and 12, and the length of the whole. |
| Layouts.RequestMeta | robot_server/protocol.cpp:250-258 | The record of image `i` at offset 16 + 32*i, field by field. |
| Layouts.RequestState | robot_server/protocol.cpp:260-262 | State value `j` after the records, at four bytes each. |
| Layouts.RequestNoise | robot_server/protocol.cpp:263-265 | Noise value `j` after the state, at four bytes each. |
| Layouts.RequestTask | robot_server/protocol.cpp:266 | The task follows the noise. |
| Layouts.RequestBody | robot_server/protocol.cpp:267-270 | After the task, the name and then the pixels of each image, one image after the other. |
| Layouts.RequestAccepted | robot_server/protocol.cpp:223-244 | A request is encoded iff it has images, its counts fit 32 bits, its floats are finite and every image is raw RGB with all its rows, in plain arithmetic. |
| Layouts.ResponseMetric | robot_server/protocol.cpp:394-402 | The four counts of a response, and each metric after the sizes of those before it: length, value, name. |
| Layouts.ResponseAction | robot_server/protocol.cpp:403-405 | The actions follow the metrics, at four bytes each, and nothing follows them. |
| Layouts.ResponseAccepted | robot_server/protocol.cpp:372-392 | A response is encoded iff its shape is its number of actions, its counts fit 32 bits and every metric has a name. |
| Transport.Connection.SendAll | robot_server/socket.cpp:124-140 | Whatever the pieces: on success the whole buffer has been sent; on failure only a prefix of it. |
| Transport.Connection.RecvExact | robot_server/socket.cpp:142-162 | Succeeds iff `len` bytes arrive, and returns those, however they were cut; a clean end means the stream is used up. |
| SessionLoop.ModelAdapter.Predict | robot_server/model_adapter.cpp:15-53 | The loops hand the model the observation of the specification and build its response, for success and failure alike. |
| SessionLoop.ModelAdapter.Reset | robot_server/model_adapter.cpp:55-59 | The state becomes what the model's own reset makes of it; without a model it stays. |
| SessionProofs.ObservationMeans | robot_server/model_adapter.cpp:15-39 | What the model is handed, field by field: an empty name becomes "image", no bytes become none, sizes are read as signed. |
| SessionLoop.SendMessage | robot_server/session.cpp:40-52 | Puts exactly one frame on the stream unless a send fails. |
| SessionLoop.ReadMessage | robot_server/session.cpp:66-87 | Takes from the stream exactly the bytes of one frame, of a refused header, or of a cut-off frame, and says which. |
| SessionLoop.ParseExtend | robot_server/session.cpp:66-87 | Bytes that follow a frame or a refused header do not change how the stream starts. |
| SessionLoop.ServeFrame | robot_server/session.cpp:97-150 | Serves one frame as `Serve` says, model state and reply; `SessionProofs.ServeAnswers` gives both in full. |
| SessionLoop.HandleClient | robot_server/session.cpp:89-153 | For any fragmentation and any failure: the bytes taken are the served frames and a tail that is no frame, with nothing after a shutdown; the model has gone through exactly `Run` over them, what was sent is exactly that run's replies unless a send failed, and without failures the bytes not taken would have changed nothing. `StatesFollow`, `ServeAnswers` and `ResetTakesHold` say what that run is. |
| SessionProofs.FrameCodec | robot_server/session.cpp:40-87 | A stream starts with frame `f` and goes on with `rest` iff it is the bytes of `f`, of legal size, then `rest`. |
| SessionProofs.UniqueFraming | robot_server/session.cpp:66-87 | Every byte stream is, in exactly one way, legal frames followed by a tail that is no frame. |
| SessionProofs.FrameBytesLength | robot_server/session.cpp:40-52 | A frame is 32 bytes and its payload. |
| SessionProofs.ServedMeans | robot_server/session.cpp:91-150 | The number of frames served is characterised: all, or up to and including the first shutdown. |
| SessionProofs.RunServes | robot_server/session.cpp:89-153 | A run over frames and a tail serves just those frames, with their replies and the model state they lead to. |
| SessionProofs.ServeAnswers | robot_server/session.cpp:97-150 | Every operation in full, in literal numbers and bytes: status, payload and the state left behind. Health, shutdown and refused requests leave the state, reset leaves `m.reset(s)`, a prediction leaves the model's own next state; BAD_REQUEST iff the operation is unknown or the request does not decode. |
| SessionProofs.StatesFollow | robot_server/session.cpp:89-153 | In any run frame `i` is answered in the state the frames before it left, and leaves that of its own answer. |
| SessionProofs.ResetTakesHold | robot_server/session.cpp:105-108 | Over whole runs, the frame after a reset is answered in `m.reset` of the state before it. |
| SessionProofs.SessionSafety | robot_server/session.cpp:89-153 | For any pipelined frames and any tail: one reply per served frame, in order, echoing operation and id; nothing after the first shutdown; no reply at a refused header. |
| Client.ModelClient.MakePredictRequest | robot_client/cpp/model_client.cpp:52-92 | Succeeds iff there are images and each is given with pixels and a stride that holds its width; then every field is sent, the name the client gave or "image" and its index in decimal; else the fault is that of the first image at fault. |
| Client.ModelClient.Call | robot_client/cpp/model_client.cpp:168-205 | Sends exactly one request frame under the next id, flags, status and reserved zero, and makes of the reply what `Receive` says, for any fragmentation. |
| Client.ImageNameMeans | robot_client/cpp/model_client.cpp:79 | The name sent is the client's, or "image" followed by the numeral whose value is the index. |
| EndToEnd.ReceiveMeans | robot_client/cpp/model_client.cpp:168-205 | What the client makes of a whole frame: a foreign id, a payload, or the error text, in that order. |
| Client.ModelClient.Predict | robot_client/cpp/model_client.cpp:140-166 | A request that cannot be built or encoded is refused before anything is sent; otherwise one frame goes out and the answer is decoded. |
| Client.MetricValue | robot_client/cpp/model_client.cpp:105-112 | Returns the value of the first metric of that name, or the fallback. |
| EndToEnd.RequestArrives | robot_client/cpp/model_client.cpp:52-92 | With unwrapped strides, what the server decodes is the request the client made, and the observation has exactly the client's names ("image" and the decimal index when empty), sizes, strides, bytes, state, noise and text, said without the functions that build it. |
| EndToEnd.ReplyArrives | robot_server/session.cpp:119-143 | For every outcome of the model the client gets exactly what that outcome calls for. |
| EndToEnd.ExpectedMeans | robot_server/session.cpp:119-143 | The client gets a response iff the model predicted one that encodes within the limit; else the model's text, a stand-in for an empty one, or the limit's fault. |
| EndToEnd.EndToEnd | robot_client/cpp/model_client.cpp:140-205 | From the client's observation to the model and back: the model sees exactly the observation, one reply comes back, and the client returns the model's result, or its error text. |
| EndToEnd.SuccessIsExact | robot_server/session.cpp:119-143 | On success the client holds the model's actions bit for bit, its chunk and dimension, and its metrics between `server_recv_ms` and `server_queue_ms`, `server_predict_ms`. |
| EndToEnd.TooLargeIsRefused | robot_server/session.cpp:66-87 | Over the payload limit the server replies nothing, the model is untouched and the client sees the connection close. |
| EndToEnd.RowsAreWholeExactlyWhenUnwrapped | robot_server/protocol.cpp:136-160 | The server's size checks guarantee whole rows for every accepted image of a width iff `3 * width` does not wrap. |
| PythonClient.EncodePredictObservation | robot_client/python/model_client.py:76-116 | Raises iff a field does not pack, a finite number too large for a float32 included; else the bytes are the C++ layout of the same fields. |
| PythonClient.SameRequestBytes | robot_client/python/model_client.py:76-116 | On every request the C++ encoder accepts, with floats that narrow back to themselves, the Python client sends the same bytes. |
| PythonClient.PythonRequestDecodes | robot_client/python/model_client.py:76-116 | What the Python client sends decodes iff the C++ checks would have passed, and then to the same request. |
| PythonClient.DecodePredictResponse | robot_client/python/model_client.py:119-144 | The loop returns what the grammar of the Python decoder yields, with metrics as a last-wins map. |
| PythonClient.SameResponses | robot_client/python/model_client.py:119-144 | The C++ decoder accepts a payload iff the Python decoder does and no metric name is empty, and both read the same. |
| PythonClient.LookupsMean | robot_client/python/model_client.py:119-144 | Under a repeated name C++ reports the first value, Python the last. |
| PythonConversation.RecvAll | robot_client/python/model_client.py:45-54 | Succeeds iff that many bytes arrive, and joins them however they were cut. |
| PythonConversation.RecvMessage | robot_client/python/model_client.py:63-73 | Takes exactly the bytes of one message, with no limit on its size. |
| PythonConversation.ModelClient.Call | robot_client/python/model_client.py:204-213 | Sends one frame under the next id, refuses an id beyond 32 bits before sending, and makes of the reply what `Receive` says. |
| PythonConversation.SameReply | robot_client/python/model_client.py:204-213 | Both clients make the same of the same bytes, but for the payload limit, the words put in place of an empty error text, and Python's decoding of the text. |
| PythonConversation.SameResponse | robot_client/python/model_client.py:204-226 | The C++ client returns a response for some bytes iff the Python client returns it, the payload is within the limit and no metric name is empty. |
| Utf8.DecodeStrict | src/models/starvla/fast_codec.cpp:24-68 | The loop returns what the strict decoder yields, or its first fault. |
| Utf8.StrictStepMeans | src/models/starvla/fast_codec.cpp:24-68 | A step succeeds iff the input starts with the shortest encoding of a Unicode scalar value, and yields that value and length. |
| Utf8.StrictMeans | src/models/starvla/fast_codec.cpp:24-68 | The strict decoder accepts exactly the concatenations of encodings of scalar values, and inverts encoding. |
| Utf8.DecodeLossy | src/models/starvla/fast_codec.cpp:127-195 | The loop with its three indices returns what the lossy decoder yields. |
| Utf8.LossyStepMeans | src/models/starvla/fast_codec.cpp:127-195 | A step takes exactly the longest initial subsequence of a well-formed one, or the whole of a well-formed one, and no other segment will do (section 3.9 of the Unicode Standard). |
| Utf8.LossyMeans | src/models/starvla/fast_codec.cpp:127-195 | For every byte string the output is the one with a U+FFFD per maximal subpart, and no other is. |
| Utf8.LossyIsScalar | src/models/starvla/fast_codec.cpp:127-195 | Only scalar values are emitted, whatever the input. |
| Utf8.EncodeIs | src/models/starvla/fast_codec.cpp:70-93 | The encoding of a scalar value is the one spelling of it, in marked bytes, of the length its size calls for. |
| Utf8.EncodeAppend | src/models/starvla/fast_codec.cpp:70-93 | Encodings of lists stand one after the other. |
| Utf8.DecodersAgree | src/models/starvla/fast_codec.cpp:24-195 | Re-encoding the lossy output gives the input back iff the strict decoder accepts it, and then both agree. |
| ByteLevel.AlphabetIsInjective | src/models/starvla/fast_codec.cpp:70-93 | No two bytes share a code point, and each is a scalar value. |
| ByteLevel.AlphabetIs | src/models/starvla/fast_codec.cpp:70-93 | The alphabet in full: which bytes stand for themselves, and which code point from 256 on each other byte has. |
| ByteLevel.InverseAlphabet | src/models/starvla/fast_codec.cpp:70-93 | The table built by the loops is the exact inverse of the alphabet on all 256 bytes. |
| ByteLevel.CompilePiece | src/models/starvla/fast_codec.cpp:95-125 | Returns the piece that spells the vocabulary string, or fails when no non-empty piece spells it: empty, ill-formed, or, iff some code point is outside the alphabet, for that. |
| ByteLevel.SpellIsInjective | src/models/starvla/fast_codec.cpp:70-125 | A vocabulary string stands for one piece only. |
| ByteLevel.SpellOne | src/models/starvla/fast_codec.cpp:95-125 | A byte is spelled with the encoding of its code point. |
| ByteLevel.SpellAppend | src/models/starvla/fast_codec.cpp:95-125 | A piece is spelled byte after byte. |
| FastLimits.CheckedActionCount | src/models/starvla/fast_codec.cpp:197-240 | For positive dimensions accepts iff the limits hold in unbounded arithmetic, and returns the true products: nothing wraps. |
| FastLimits.LimitsAre | src/models/starvla/fast_codec.cpp:197-240 | The limits in numbers. |
| TokenMap.LowerBound | src/models/starvla/fast_codec.cpp:369-379 | The binary search splits the sorted pairs at the key. |
| TokenMap.Find | src/models/starvla/fast_codec.cpp:244-252 | Binary search over the sorted pairs finds exactly what a search of the map itself would. |
| TokenMap.IndexOfMeans | src/models/starvla/fast_codec.cpp:360-381 | The inverse map holds `f` at `v` iff token `f` has id `v`. |
| Fast.FastCodec.constructor | src/models/starvla/fast_codec.cpp:244-252 | Sorting the pairs leaves a valid codec with the given contents. |
| Fast.FastCodec.MapFastToVlm | src/models/starvla/fast_codec.cpp:340-358 | Accepts iff the length and every id are in range; maps in order, or returns nothing. |
| Fast.FastCodec.MapVlmToFast | src/models/starvla/fast_codec.cpp:360-381 | Accepts iff the length fits and every id is an action token; maps in order. |
| Fast.FastCodec.ExtractFastTokens | src/models/starvla/fast_codec.cpp:383-400 | Accepts iff the length fits; the result is the order-preserving filter and map. |
| FastProofs.MapRoundTrip | src/models/starvla/fast_codec.cpp:340-381 | Mapping to language-model ids and back is the identity. |
| FastProofs.MapBack | src/models/starvla/fast_codec.cpp:340-381 | Mapping action tokens to FAST ids and back is the identity. |
| FastProofs.ExtractOne | src/models/starvla/fast_codec.cpp:383-400 | A generated id becomes the place that holds it, or is dropped when none does. |
| FastProofs.ExtractAppend | src/models/starvla/fast_codec.cpp:383-400 | The ids of a sequence are extracted one after the other. |
| FastProofs.GeneratedIsStrict | src/models/starvla/fast_codec.cpp:497-535 | Sequences with ordinary ids in between and their action tokens alone map to the same batch, and both decoders accept on the same condition, within the length limits. |
| FastProofs.DecodeBoth | src/models/starvla/fast_codec.cpp:497-535 | Decoding generated sequences, and strictly decoding their action tokens, fail together or give the same result. |
| Fast.FastCodec.ByteLevelDecode | src/models/starvla/fast_codec.cpp:402-435 | Accepts iff lengths and ids are in range; the result is the lossy decoding of the bytes of the tokens, which `OnePiece` and `PieceBytesAppend` say are their pieces, whole and in order. |
| FastProofs.PieceBytesAppend | src/models/starvla/fast_codec.cpp:402-435 | The bytes of two sequences in a row are the bytes of each in a row. |
| FastProofs.OnePiece | src/models/starvla/fast_codec.cpp:429-432 | The bytes of one token are its piece, whole. |
| FastProofs.BoundariesDoNotMatter | src/models/starvla/fast_codec.cpp:402-476 | Cut the encoding of a list of code points at any places: when each token's own piece is what lies between two cuts, that list is recovered, and is accepted iff it has one code point per coefficient. |
| FastProofs.RecoverPoints | src/models/starvla/fast_codec.cpp:402-435 | `ByteLevelDecode` itself returns that list. |
| Fast.FastCodec.InverseTransform | src/models/starvla/fast_codec.cpp:478-491 | The frequency loop computes the inverse transform of the action's own column, in `horizon - 1` multiply-adds. |
| Fast.FastCodec.DecodeColumn | src/models/starvla/fast_codec.cpp:478-491 | Writes the cells of one action column and no other cell. |
| Fast.FastCodec.DecodeSample | src/models/starvla/fast_codec.cpp:468-493 | Fills one sample's slice and no other cell, within the work of a sample. |
| Fast.FastCodec.DecodeFastTokens | src/models/starvla/fast_codec.cpp:437-495 | Accepts iff the batch is within the limits and every sequence decodes to one code point per coefficient; then every cell is written exactly once, with the transform of its own column of its own sequence, in at most 64*2^20 multiply-adds. |
| Fast.FastCodec.DecodeVlmActionTokens | src/models/starvla/fast_codec.cpp:497-515 | Accepts iff every id is an action token and the mapped batch is accepted; decodes that batch. |
| Fast.FastCodec.DecodeGeneratedTokens | src/models/starvla/fast_codec.cpp:517-535 | Accepts iff the lengths fit and the filtered batch is accepted; decodes that batch. |
| Dct.Orthonormal | src/models/starvla/fast_codec.cpp:466-491 | The basis of the transform is orthonormal for every horizon. |
| Dct.BasisIs | src/models/starvla/fast_codec.cpp:478-491 | The basis in full: the reciprocal root of the horizon, and scaled cosines of odd multiples of the angle. |
| Dct.TransformInverts | src/models/starvla/fast_codec.cpp:466-491 | The forward transform of the outputs gives every coefficient back. |
| Dct.TransformIsometric | src/models/starvla/fast_codec.cpp:466-491 | The transform keeps inner products, and so sums of squares. |
| FastProofs.CoefficientIsThere | src/models/starvla/fast_codec.cpp:466-491 | In an accepted sequence every coefficient is a dequantised code point; none is missing. |
| FastProofs.TermOf | src/models/starvla/fast_codec.cpp:478-491 | A term of an output is its coefficient times its basis value. |
| FastProofs.DecodedCell | src/models/starvla/fast_codec.cpp:437-495 | Cell (sample, time, column) of a decoded batch, at its offset, is the sum of those terms over the column's own code points. |
| FastProofs.DecodedColumnInverts | src/models/starvla/fast_codec.cpp:437-495 | Any decoded column transforms back to the coefficients its own code points encode, whatever the other columns and sequences hold. |
| FastProofs.DecodedColumnEnergy | src/models/starvla/fast_codec.cpp:437-495 | The squares of a decoded column sum to the squares of its coefficients. |
| Fast.Create | src/models/starvla/fast_codec.cpp:254-287 | Succeeds iff the vocabulary spells the pieces of a legal codec, and builds that codec. |
| Fast.CreateCompiled | src/models/starvla/fast_codec.cpp:289-330 | Succeeds iff offsets and bytes are those of a legal codec's pieces, and builds that codec. |
| FastProofs.FlatIsInjective | src/models/starvla/fast_codec.cpp:318-328 | Offsets and bytes determine the pieces. |
| FastProofs.FlattensExactly | src/models/starvla/fast_codec.cpp:289-330 | Pieces have offsets iff their bytes together are fewer than 2^31. |
| FastProofs.VocabularyIsInjective | src/models/starvla/fast_codec.cpp:95-125 | A vocabulary determines the pieces. |
| FastProofs.BuildBoth | src/models/starvla/fast_codec.cpp:254-330 | Both constructors on the same pieces succeed together and hold the same contents, so they decode every batch alike. |
| AttentionMasks.BuildSelfMask | src/models/smolvla/action_expert.cpp:899-926 | The loops fill the self-attention mask that `SelfMaskCells` gives cell by cell, and number action `i` with the count of valid prefix tokens plus `i`. |
| AttentionMasks.BuildCrossMask | src/models/smolvla/action_expert.cpp:928-946 | The loops fill the cross-attention mask that `CrossMaskCells` gives cell by cell, and number the actions from zero. |
| AttentionMasks.SelfCellAt | src/models/smolvla/action_expert.cpp:911-923 | Cell (query, c) is open iff the query is an action and c is a valid prefix token or an action up to the query, itself included. |
| AttentionMasks.CrossCellAt | src/models/smolvla/action_expert.cpp:934-945 | Cell (query, c) is open iff c is a valid prefix token. |
| AttentionMasks.PadRowsShut | src/models/smolvla/action_expert.cpp:910-923 | Every cell of the rows that only pad is shut. |
| AttentionMasks.SelfMaskCells | src/models/smolvla/action_expert.cpp:910-923 | The whole self mask: at q*(prefix + chunk) + c stand the bits of 0.0f iff q is an action and c a valid prefix token or an action up to q, else those of -INFINITY. |
| AttentionMasks.CrossMaskCells | src/models/smolvla/action_expert.cpp:934-945 | The whole cross mask: at q*prefix + c stand the bits of 0.0f iff q is an action and c a valid token, else those of -INFINITY. |
| AttentionMasks.CountIsCardinality | src/models/smolvla/action_expert.cpp:901-904 | The count is the number of valid tokens. |
| PrefixFlow.AssemblePrefix | src/models/smolvla/smolvla_engine.cpp:795-864 | The loops yield the valid mask, positions (the number of valid tokens before each; for padding, the number of padding tokens before it) and sequence ids of the layout. |
| PrefixFlow.MaskMeans | src/models/smolvla/smolvla_engine.cpp:795-806 | A token is masked in unless it pads the instruction. |
| PrefixFlow.PositionMeans | src/models/smolvla/smolvla_engine.cpp:807-864 | A token's position is how many of its own kind, masked in or padding, come before it. |
| PrefixFlow.PositionsEnumerate | src/models/smolvla/smolvla_engine.cpp:807-816 | The positions of the valid tokens, in order, are 0, 1, 2, ... once each. |
| PrefixFlow.PositionsAreConsecutive | src/models/smolvla/smolvla_engine.cpp:807-816 | Valid prefix and actions together are numbered 0 to valid + chunk - 1 without gap or repeat. |
| PrefixFlow.VisibilityIs | src/models/smolvla/smolvla_engine.cpp:838-864 | Who sees whom under the sequence ids, in full: valid never sees padding, and only the last token sees the last. |
| PrefixFlow.LastTokenMustBeState | src/models/smolvla/smolvla_engine.cpp:845-864 | Every valid token that is not the state is seen by every valid token iff there is a state token, or padding comes last, or there is one token. |
| PrefixFlow.TokensDependOnValid | src/models/smolvla/smolvla_engine.cpp:795-864 | Through any number of layers, of any network with this visibility, padding changes no valid token, and the state token changes no other. |
| PrefixFlow.PadsNeverReachActions | src/models/smolvla/action_expert.cpp:836-1083 | Over any layers and denoising steps padding changes no action. |
| PrefixFlow.ActionsAreCausal | src/models/smolvla/action_expert.cpp:836-1083 | The first `n` actions depend on the first `n` rows of noise only, through all layers and steps. |
| Causality.ListensToActions | src/models/smolvla/action_expert.cpp:836-1083 | An attention layer shows action `q` exactly the actions `k <= q` when it is self attention, and none when it is cross attention. |
| Causality.ListensToPrefix | src/models/smolvla/action_expert.cpp:836-1083 | Either attention shows every action exactly the tokens that are not padding. |
| Causality.ListensToTokens | src/models/smolvla/smolvla_engine.cpp:838-864 | One layer of the language model shows token `i` exactly the tokens its kind may see. |
| Causality.CausalityIsTight | src/models/smolvla/action_expert.cpp:836-1083 | Two noises that differ in row `k` alone can give different actions `q` in some network iff `k <= q`. |
| Causality.PrefixIsTight | src/models/smolvla/action_expert.cpp:836-1083 | Two prefixes that differ in one token alone can give different actions in some network iff that token is not padding. |
| ExpertState.EitherLayout | src/models/smolvla/action_expert.cpp:1167-1199 | Rows and transposed storage of the same values are copied to the same cache. |
| ExpertState.ReadyReads | src/models/smolvla/action_expert.cpp:1092-1121 | A ready graph touches live tensors only and reads exactly what the caches hold. |
| ExpertState.CachesAreFresh | src/models/smolvla/action_expert.cpp:1092-1121 | Caches filled for a request hold what a rebuild from nothing for that request would. |
| FreshInputs.KeyAt | src/models/smolvla/action_expert.cpp:1170-1183 | Component `d` of token `t` of layer `l` of the key cache is that of the language model's own layer `l`, rows of the layer's width. |
| FreshInputs.ValueAt | src/models/smolvla/action_expert.cpp:1185-1203 | The value cache likewise, from rows or from columns. |
| FreshInputs.SelfBiasAt | src/models/smolvla/action_expert.cpp:899-926 | The self mask a prediction runs on, cell by cell, in terms of the request's layout. |
| FreshInputs.CrossBiasAt | src/models/smolvla/action_expert.cpp:928-946 | The cross mask a prediction runs on, cell by cell, and the prefix length. |
| FreshInputs.RestIs | src/models/smolvla/action_expert.cpp:1092-1121 | Positions, step numbers and the noise a prediction runs on. |
| FreshInputs.AcceptableIs | src/models/smolvla/smolvla_engine.cpp:775-794 | Which requests fit, in plain arithmetic: an image, no more tokens than the context holds, a decoded prefix, and in every layer a row for each token. |
| ExpertRuntime.Expert.ClearDenoise | src/models/smolvla/action_expert.cpp:152-166 | Ends the life of the graph's own tensors and of no others. |
| ExpertRuntime.Expert.ClearPrefixKv | src/models/smolvla/action_expert.cpp:120-134 | Ends the life of the prefix tensors and of the graph that captured them; attention tensors stay. |
| ExpertRuntime.Expert.ClearAttention | src/models/smolvla/action_expert.cpp:136-150 | Ends the life of the attention tensors and of the graph that captured them; prefix tensors stay. |
| ExpertRuntime.Expert.EnsurePrefixKv | src/models/smolvla/action_expert.cpp:183-242 | Keeps the invariant through reuse, rebuild and every refused allocation; fails only then or for a length that is not positive. |
| ExpertRuntime.Expert.CreateAttentionTensors | src/models/smolvla/action_expert.cpp:624-687 | Keeps the invariant; on success the runtime has this length and is not prepared, reused or not. |
| ExpertRuntime.Expert.PrepareAttentionCache | src/models/smolvla/action_expert.cpp:689-729 | Keeps the invariant; the masks come from the given valid mask, or from the old one when the runtime was already prepared at this length. |
| ExpertRuntime.Expert.InitFixedPrefix | src/models/smolvla/action_expert.cpp:871-888 | On success prefix and attention runtimes share the length and the masks are marked stale. |
| ExpertRuntime.Expert.BuildDenoise | src/models/smolvla/action_expert.cpp:964-1089 | Builds a graph over the current tensors and schedules it, or leaves no denoise runtime at all; the cache tensors stay either way. |
| ExpertRuntime.Expert.EnsureDenoise | src/models/smolvla/action_expert.cpp:948-1090 | Though it compares lengths only, the graph it reuses captures exactly the current, live tensors. |
| ExpertRuntime.Expert.EvalDenoise | src/models/smolvla/action_expert.cpp:1092-1121 | Refuses unless prepared at the prefix length; else returns the graph's function of what the caches hold now. |
| ExpertRuntime.Expert.PreparePrefixKv | src/models/smolvla/action_expert.cpp:1123-1227 | Succeeds iff every layer fits and no allocation is refused, and then each cache holds its layer, transposed or not; on failure no tensor that was there before has been written. |
| ExpertRuntime.Expert.Predict | src/models/smolvla/smolvla_engine.cpp:768-926 | Whatever the caches held before, succeeds iff the request fits and nothing is refused, and returns what a graph built from scratch for this request would; an allocator without limits refuses nothing. |
| ExpertRuntime.Expert.PredictAll | src/models/smolvla/smolvla_engine.cpp:768-926 | Over any run of predictions, of any lengths, failures included, each is as if it were the only one; without limits on memory exactly those that fit succeed. |
| ExpertRuntime.Expert.Free | src/models/smolvla/action_expert.cpp:1233-1256 | After any history, freeing the runtimes frees every tensor. |
| SmartResize.RoundDivIsNearest | src/models/starvla/oft_image_preprocess.cpp:243-251 | The rounding lambda yields the nearest quotient, of two equally near ones the even one, and no other number. |
| SmartResize.RoundedMeans | src/models/starvla/oft_image_preprocess.cpp:253-254 | A rounded side is the multiple of the factor nearest to the side, of two equally near ones the even multiple, and no other number. |
| SmartResize.RoundedAreaFits | src/models/starvla/oft_image_preprocess.cpp:244-261 | The product of the rounded sides never overflows 64 bits, for all int inputs. |
| SmartResize.AcceptsExactly | src/models/starvla/oft_image_preprocess.cpp:225-278 | Succeeds iff bounds are valid and neither side is more than 200 times the other (the last check never fails); both sides are then positive multiples of the factor. |
| SmartResize.ShrunkArea | src/models/starvla/oft_image_preprocess.cpp:257-262 | After shrinking, the area is within the bound iff an integer test on the inputs holds. |
| SmartResize.EnlargedArea | src/models/starvla/oft_image_preprocess.cpp:263-267 | After enlarging, the area is at least the lower bound. |
| SmartResize.AreaLands | src/models/starvla/oft_image_preprocess.cpp:253-267 | Where the area lands in each branch: within the upper bound iff the integer test holds, at least the lower bound, or within both; `IntegerSizes.BoundsExactly` adds the other two bounds. |
| IntegerSizes.ShrunkCountMeans | src/models/starvla/oft_image_preprocess.cpp:257-262 | The count of a shrunk side is the largest number of factors whose square, along the other side, fits, or one: both directions, without roots. |
| IntegerSizes.EnlargedCountMeans | src/models/starvla/oft_image_preprocess.cpp:263-267 | The count of an enlarged side is the least number of factors whose square, along the other side, reaches: both directions, without roots. |
| IntegerSizes.DimensionsInIntegers | src/models/starvla/oft_image_preprocess.cpp:225-278 | The whole rule, computed with a square root, gives the faults and sizes that integers alone give. |
| IntegerSizes.SizeMeans | src/models/starvla/oft_image_preprocess.cpp:253-267 | What the rule chooses: the nearest multiples when their product is within the bounds, else for each side the largest multiple that fits, or the least that reaches. |
| IntegerSizes.BoundsExactly | src/models/starvla/oft_image_preprocess.cpp:253-267 | In each branch, iff conditions on the inputs for meeting the lower and the upper bound. |
| IntegerSizes.TokensExactly | src/models/starvla/oft_image_preprocess.cpp:307-318 | The tokens exceed an int iff the factor is one, the image is enlarged and the product of its counts is above an int. |
| SmartResize.FixedPoint | src/models/starvla/oft_image_preprocess.cpp:225-278 | Resizing again changes nothing when the result is in bounds and of legal aspect. |
| SmartResize.TokensTile | src/models/starvla/oft_image_preprocess.cpp:307-318 | The token count times the factor squared is the area, and is at least one. |
| SmartResize.ShrinkMayOvershoot | src/models/starvla/oft_image_preprocess.cpp:257-262 | A shrunk image can exceed the upper bound: 6 by 600 with factor 10 and bound 900. |
| SmartResize.ShrinkMayUndershoot | src/models/starvla/oft_image_preprocess.cpp:257-262 | A shrunk image can fall below the lower bound. |
| SmartResize.EnlargeMayOvershoot | src/models/starvla/oft_image_preprocess.cpp:263-267 | An enlarged image can exceed the upper bound. |
| SmartResize.TokensMayOverflow | src/models/starvla/oft_image_preprocess.cpp:308-317 | With a factor of one the token count can exceed an int, so the last check of the caller can fire. |
| Filters.CubicBounds | src/models/starvla/oft_image_preprocess.cpp:28-38 | The kernel lies between -2/27 and 1. |
| Filters.CubicIs | src/models/starvla/oft_image_preprocess.cpp:28-38 | The kernel as two cubic polynomials, multiplied out. |
| Filters.CubicPartition | src/models/starvla/oft_image_preprocess.cpp:28-38 | The kernel's weights at four taps one apart sum to one, around any point. |
| Filters.CubicBalances | src/models/starvla/oft_image_preprocess.cpp:28-38 | Their first moment is zero, so that a ramp is reproduced. |
| Filters.WindowIsWhole | src/models/starvla/oft_image_preprocess.cpp:75-97 | Every tap window is non-empty, inside the source, and never cut by the kernel size. |
| Filters.ScaleIs | src/models/starvla/oft_image_preprocess.cpp:76-78 | The scale is the ratio of the sizes, and the support two filter widths, which are never below a pixel. |
| Filters.CenterIs | src/models/starvla/oft_image_preprocess.cpp:89 | A target pixel's centre is as far into the source as it is into the target. |
| Filters.WindowIsSupport | src/models/starvla/oft_image_preprocess.cpp:90-93 | The window holds exactly the source pixels whose centres lie within the support, the upper end included. |
| Filters.DistanceIs | src/models/starvla/oft_image_preprocess.cpp:99-101 | The distance of a tap, in filter widths. |
| Filters.WeightIs | src/models/starvla/oft_image_preprocess.cpp:99-113 | A weight times the sum of its window is the kernel at that distance. |
| Filters.SumIsPositive | src/models/starvla/oft_image_preprocess.cpp:99-106 | The raw weights of a window always sum to at least 1/25, so the test for a zero sum never fails. |
| Filters.SumBound | src/models/starvla/oft_image_preprocess.cpp:99-106 | The raw weights sum to at least what the central taps must contribute, less what the others may take. |
| Filters.WeightsNormalised | src/models/starvla/oft_image_preprocess.cpp:107-113 | The weights of a window sum to one and none exceeds 25. |
| Filters.EnlargingInterior | src/models/starvla/oft_image_preprocess.cpp:90-113 | When enlarging, a window the border does not cut has four taps whose raw weights already sum to one, so normalising changes nothing. |
| Filters.StoredSumToOne | src/models/starvla/oft_image_preprocess.cpp:124-131 | The fixed-point weights of a window sum to the unit, within half a unit per tap. |
| Filters.NearestMeans | src/models/starvla/oft_image_preprocess.cpp:126-131 | Rounding is to the nearest integer, of two equally near ones the one away from zero, and to no other. |
| FilterTables.MakeFilterTable | src/models/starvla/oft_image_preprocess.cpp:75-131 | The loops build the table of the specification: windows, every weight, zeros past a window, and the precision. |
| FilterTables.PrecisionBounds | src/models/starvla/oft_image_preprocess.cpp:115-125 | The precision lies between 10 and 22, so the rounding shift is never by a negative amount. |
| FilterTables.PrecisionWhen | src/models/starvla/oft_image_preprocess.cpp:115-125 | The precision is below 22 bits only when its unit is at least 16383.75 times the smallest sum of a window. |
| FilterTables.PrecisionIs | src/models/starvla/oft_image_preprocess.cpp:115-125 | The precision is 22, or the least of up to 22 bits at which twice the largest weight fills 15 bits. |
| Resample.ResizeHorizontal | src/models/starvla/oft_image_preprocess.cpp:138-161 | The loops read inside the source and produce the image that `AcrossPixel` gives byte by byte. |
| Resample.ResizeVertical | src/models/starvla/oft_image_preprocess.cpp:163-187 | The loops read inside the source and produce the image that `DownPixel` gives byte by byte. |
| Resample.AcrossPixel | src/models/starvla/oft_image_preprocess.cpp:138-161 | The byte at 3*(row*width' + column) + channel is 2^(precision-1) plus the sum, over the window, of the source bytes of the same row and channel times the stored weights, shifted and clamped. |
| Resample.DownPixel | src/models/starvla/oft_image_preprocess.cpp:163-187 | The same down a column: the source bytes of the same column and channel. |
| Resample.StoredIs | src/models/starvla/oft_image_preprocess.cpp:126-131 | A stored weight is the weight times the unit, rounded to the nearest. |
| Resample.AcrossLocal | src/models/starvla/oft_image_preprocess.cpp:138-161 | Two sources that agree on one row and channel inside the window give the same byte there. |
| Resample.DownLocal | src/models/starvla/oft_image_preprocess.cpp:163-187 | Two sources that agree on one column and channel inside the window give the same byte there. |
| Resample.PixelOf | src/models/starvla/oft_image_preprocess.cpp:133-136 | A constant survives shift and clamp iff its error, in stored units, is at least minus half a unit and below half a unit, or the constant is 255. |
| Resample.AcrossConstant | src/models/starvla/oft_image_preprocess.cpp:138-161 | A horizontal pass over an image of one colour, a value for each channel, gives that colour iff every window keeps each of the three. |
| Resample.DownConstant | src/models/starvla/oft_image_preprocess.cpp:163-187 | A vertical pass over an image of one colour, a value for each channel, gives that colour iff every window keeps each of the three. |
| Preprocess.PackSource | src/models/starvla/oft_image_preprocess.cpp:60-73 | The packed image is the rows of the source without their padding. |
| Preprocess.PackedAt | src/models/starvla/oft_image_preprocess.cpp:60-73 | Byte `i` of row `r` of the source stands at 3*width*r + i of the packed image. |
| Preprocess.PaddingDoesNotMatter | src/models/starvla/oft_image_preprocess.cpp:60-73 | Images that agree row by row pack alike, whatever their strides and padding bytes. |
| Preprocess.ResizeRgb | src/models/starvla/oft_image_preprocess.cpp:189-207 | Fails iff an input check fails, with its fault; else returns the resize of the packed image, which `ResizedIs` gives pass by pass. |
| Preprocess.ResizedIs | src/models/starvla/oft_image_preprocess.cpp:189-207 | First across and then down, each only where the size changes. |
| Preprocess.ConstantStays | src/models/starvla/oft_image_preprocess.cpp:60-207 | An image of one colour, a value for each channel, resizes to exactly that colour when both passes keep it, and, where one pass is not needed, only then. |
| Preprocess.EnlargingIsFine | src/models/starvla/oft_image_preprocess.cpp:75-131 | Enlarging has windows short enough for its precision, so it keeps every colour. |
| Preprocess.ShrinkingIsFine | src/models/starvla/oft_image_preprocess.cpp:75-131 | So has shrinking by up to 4000, at 22 bits and at the precision the code chooses. |
| Preprocess.ColoursStay | src/models/starvla/oft_image_preprocess.cpp:60-207 | Enlarged by any factor or shrunk by up to 4000 each way, an image of any one colour, any three values, stays exactly that colour. |
| Preprocess.PreprocessQwen | src/models/starvla/oft_image_preprocess.cpp:280-320 | Every fault in the order of the checks, each iff its condition holds; on success the size is the rule's, the pixels are the resize of the packed source, and the tokens tile it. |
| Connector.AcceptsAll | src/models/smolvla/vision.cpp:260-280 | The chain goes through for every grid of blocks, and its data is the permuted grid. |
| Connector.AcceptsOnly | src/models/smolvla/vision.cpp:260-280 | It goes through only for a square of squares of patches whose blocks fill the tokens. |
| Connector.SpaceToDepth | src/models/smolvla/vision.cpp:271-277 | Feature `h + hidden*(px + scale*py)` of token (oy, ox) is channel `h` of patch (oy*scale + py, ox*scale + px), both offsets in plain arithmetic, for any hidden size, scale and side. |
| Connector.PermuteCopyInverts | src/models/smolvla/vision.cpp:275-276 | Permuting twice gives the tensor back: every element is used once. |
| Ensemble.AdaptiveEnsembler.EnsembleAction | eval/simpler_env/policy/model_server.py:34-58 | Refuses a short newest chunk untouched; else the history is the last `horizon` chunks, and it raises iff the predictions do not stack. |
| Ensemble.AlignedMeans | eval/simpler_env/policy/model_server.py:46-52 | Chunks of one width stack iff each chunk of age `a` has a row `a`, and that row is what it contributes. |
| Ensemble.NewestCheckIsNotEnough | eval/simpler_env/policy/model_server.py:41-44 | The ensembler's own check passes a history on which it then raises. |
| Ensemble.UniformIsAligned | eval/simpler_env/policy/model_server.py:144-167 | Validated chunks of constant shape, at least a horizon long, always stack. |
| Ensemble.WeightsAverage | eval/simpler_env/policy/model_server.py:54-58 | The weights are positive and sum to one. |
| Ensemble.CosineIs | eval/simpler_env/policy/model_server.py:52-55 | The agreement of a prediction with the newest, times the product of their norms and a little more, is their inner product. |
| Ensemble.BlendIs | eval/simpler_env/policy/model_server.py:56-58 | A blended component is the mean of the components blended, each weighted by the exponential of alpha times its agreement. |
| Ensemble.AgreementWeighsMore | eval/simpler_env/policy/model_server.py:56-57 | With a growing exponential and a positive alpha, the prediction that agrees more with the newest weighs more, and only then. |
| Ensemble.BlendBetween | eval/simpler_env/policy/model_server.py:54-58 | Each component of a blend lies among the components blended. |
| Ensemble.Policy.Reset | eval/simpler_env/policy/model_server.py:172-182 | Empties the history, sets the description and keeps the action shape. |
| Ensemble.Policy.Step | eval/simpler_env/policy/model_server.py:207-221 | Raises iff the description, the reply or its validity is missing; never in the ensembler; records the shape of an accepted reply, and the history is the last chunks since the reset. |
| Ensemble.StepBlendsThePresent | eval/simpler_env/policy/model_server.py:46-58 | After any run of steps and resets the history holds the last min(steps, horizon) chunks, and each action component lies among those predicted for the present. |

## Left out

- Sockets: setup, timeouts, retries on interruption, errno texts and the Windows calls; a failing call is a failing call.
- Clock readings: the three server timings are parameters of the session, any bit patterns.
- The mutex around prediction: the server serves one connection at a time.
- The text operations health, reset and shutdown of the clients beyond their frames.
- Python's text codec and its narrowing of numbers to 32-bit floats: names and prompts arrive encoded, and the decoding of texts and the narrowing, which may raise, are parameters.
- `action_row`: a bounds check and an offset into the actions.
- Error texts of the FAST codec and of image preprocessing: faults are enumerated, with the order of the checks kept.
- Rounding of `double` and `float`: wire values are bit patterns; transforms, filters, resizing and blending are exact.
- Fast.FastCodec.DecodeFastTokens: casts its outputs to `float` in the program; the model keeps the exact reals.
- ExpertRuntime.Expert.Predict: embeddings, tokenisation, the time-embedding table and the final unnormalisation are outside; what the graph computes and what the language model puts into its cache are arbitrary.
- ExpertRuntime.Expert.NewTensor: a tensor's memory is modelled from its creation, while the program gives it memory when its buffer is allocated.
- Preprocess.ResizeRgb: the null image is not modelled; packed strides are compared without the wrap-around of `width * 3` in an `int`, which needs a width above 2^29; accumulators are unbounded.
- Preprocess.ColoursStay: beyond a ratio of 4000 the model gives the exact condition of each pass, and does not say for which ratios it holds.
- Ensemble.AdaptiveEnsembler.EnsembleAction: arrays of other than one or two dimensions, which it rejects, and integer arrays, which it converts.
- Ensemble.Policy.Step: the Euler conversion, scaling and gripper threshold applied to the blended action, and the resizing of its image.
- `preprocess_oft_rgb`: two calls of the same resize.
- The raw-image graph cache of the vision encoder, the pi0 runtime, weight loading and metadata, the quantiser, action queues, normalisation and prompt building: easier variants of what is here, or foreign code.
