# posit<8,2> as a NumPy dtype — a Dafny model

This project models the byte- and buffer-level core of the `posit<8,2>` NumPy
extension (`src/posit8.cc`). A posit8 value is taken to be one byte: the 8 bits
of a posit<8,2>, so that `sizeof(posit8_2)` is 1. NaR (Not a Real, the pattern
`0x80`) stands in for IEEE NaN.

The model covers these parts of the extension:

- **Codec.** `marshal` and `unmarshal` scatter a byte into an 8-bit bitblock,
  least significant bit first, and gather it back. `decode`, `encode` and
  `unmarshallPositRaw` are built on them, and the scalar hash uses
  `unmarshallPositRaw`.
- **Functors that work on bits.** `NextAfter`, `Heaviside`, `Sign`,
  `Maximum`/`Minimum` and `Fmax`/`Fmin`.
- **Array hooks.** `ByteSwap16`, `CopySwapN`, `CopySwap`, `CompareFunc`,
  `ArgMaxFunc` and `ArgMinFunc`.
- **Strided ufunc loops.** `UnaryUFunc`, `BinaryUFunc`, `BinaryUFunc2` and
  `DivmodUFunc` walk a byte-addressed memory by independent strides. The
  binary loops report one floating-point exception by priority.
- **Registration.** `RegisterPosit8_2Cast`, `Initialize` and
  `RegisterNumpyPosit8_2`.

Some parts of the system are parameters of the model, not definitions inside
it:

- The posit library's arithmetic, its order `<` and its float conversion: the
  operations that need them take `less`, `value` or a functor.
- NumPy: a value `Host` that records what has been registered and which calls
  it refuses.
- The thread's floating-point environment: an `FpEnv` object holding the
  accrued flags. The flags are the exceptions of clause 7 of IEEE 754-2019.

Files:

- `wrappers.dfy`: `Option`.
- `posit8.dfy`: the byte type, NaR, bit masks, and the two's complement
  reading of a byte.
- `memory.dfy`: byte memory, `Load`/`Store`, strided operands and `Memcpy`.
- `codec.dfy`, `functors.dfy`, `loops.dfy`, `copyswap.dfy`, `arrfuncs.dfy`,
  `registration.dfy`.

In a few places the code does not do what its own text or its callers need.
The model follows the code in each case:

- A sort needs `compare` to be a total order. `CompareFunc` has a dead branch
  for NaR. When the library's `<` is false on NaR, it also answers 1 for a
  real against NaR but 0 for NaR against the real. The posit library's order
  is not part of this model, so both cases are stated. If `<` compares the raw
  two's complement patterns instead, NaR sorts first and only the dead branch
  remains.
- The comment at `src/posit8.cc:1831` says the step from zero is the smallest
  value "signed like `to`". `NextAfter` instead steps by sign and magnitude
  fields, which is not a step toward `to` on two's complement posits.
- The descriptor's `elsize` is `sizeof(posit8_2)` (`src/posit8.cc:605`), taken
  here to be one byte. The copy hooks move `sizeof(uint16_t)`, two bytes.
- `Initialize` looks an existing registration up under `posit<8,2>`
  (`src/posit8.cc:1881`). The type this extension registers is named
  `posit8_2` (`src/posit8.cc:527`), so the lookup never finds it.

Each of these is modelled as written and listed under "## Findings" with a
corrected, proved counterpart.

## Model

| member | source | states |
|---|---|---|
| Codec.Marshal | src/posit8.cc:87-122 | bit i of the bitblock is bit i of the byte (`raw[..] == Scatter(a)`) |
| Codec.Unmarshal | src/posit8.cc:127-166 | the gathered byte has bit i set exactly when `raw[i]` is set, so it is `Gather(raw)` |
| Codec.GatherScatter | src/posit8.cc:114-122 | unmarshal(marshal(b)) == b for every byte |
| Codec.ScatterGather | src/posit8.cc:154-165 | marshal(unmarshal(raw)) == raw for every bitblock |
| Codec.GatherBits | src/posit8.cc:154-165 | the gathered byte has bit i exactly when the bitblock has bit i set |
| Codec.Decode | src/posit8.cc:169-175 | `decode`: scatter the byte into a bitblock and give the posit those bits (its properties are EncodeDecode and DecodeEncode) |
| Codec.Encode | src/posit8.cc:178-183 | `encode`: gather the posit's bitblock into a byte (its properties are EncodeDecode, DecodeEncode and EncodeInjective) |
| Codec.EncodeDecode | src/posit8.cc:169-183 | encode(decode(bits)) == bits |
| Codec.DecodeEncode | src/posit8.cc:169-183 | decode(encode(p)) == p |
| Codec.EncodeInjective | src/posit8.cc:178-183 | two posits have the same raw byte exactly when they are equal |
| Codec.UnmarshallPositRaw | src/posit8.cc:63-83 | the byte read from a scalar's bitblock is its raw encoding |
| Codec.Hash | src/posit8.cc:412-418 | the hash is the scalar's raw byte as an integer in 0..255, never the error value -1 |
| Codec.HashIdentifiesValue | src/posit8.cc:410-418 | equal hashes mean equal posits, and a decoded byte hashes to itself |
| Functors.NextAfter | src/posit8.cc:1805-1849 | the as-written `nextafter` functor on bytes; its rules are NextAfterNaR and NextAfterRule |
| Functors.NextAfterNaR | src/posit8.cc:1814-1818 | NaR in either argument gives NaR before any other rule |
| Functors.NextAfterRule | src/posit8.cc:1819-1847 | equal patterns give `to`, from zero gives `(to & 0x80) \| 1`, otherwise a step of -1 (mod 256) when \|from\| > \|to\| or the signs differ and +1 otherwise, always one step away |
| Functors.NextAfterReachesNaR | src/posit8.cc:1838-1847 | the result is NaR exactly for NaR input or for the step from 0x81 toward a non-negative `to` |
| Functors.NextAfterAgreement | src/posit8.cc:1805-1849 | the source's result differs from the adjacent posit toward `to` exactly from zero toward a negative value, or from a negative value toward a non-negative one |
| Functors.StepAgreement | src/posit8.cc:1838-1847 | away from zero the source's step goes the wrong way exactly from a negative value toward a non-negative one |
| Functors.NextAfterWrongDirection | src/posit8.cc:1823-1847 | from 0 toward -1 the source gives 0x81 (the most negative real); from 0xFF toward 1 it moves away from 1; from 0x81 toward 1 it reaches NaR |
| Functors.NextAfterToward | src/posit8.cc:1805-1849 | the corrected step propagates NaR, returns `to` when equal, and otherwise moves one two's complement step toward `to` without passing it |
| Functors.NextAfterTowardFromZero | src/posit8.cc:1823-1836 | from zero the corrected step gives the smallest-magnitude posit with the sign of `to` |
| Functors.DownIffAbove | src/posit8.cc:1838-1843 | the source's step-down test holds exactly when `from` is above `to` or `from` is negative and `to` non-negative |
| Functors.Heaviside | src/posit8.cc:1377-1396 | `heaviside` by float comparison of the value; its bit-level reading is HeavisideByBits |
| Functors.Sign | src/posit8.cc:1521-1535 | `sign` by float comparison of the value; its bit-level reading is SignByBits |
| Functors.Maximum | src/posit8.cc:1752-1759 | `a` when `a` is NaN or greater than `b`, else `b` (its properties are MaximumMinimumNaN) |
| Functors.Minimum | src/posit8.cc:1760-1767 | `a` when `a` is NaN or less than `b`, else `b` (its properties are MaximumMinimumNaN) |
| Functors.Fmax | src/posit8.cc:1768-1775 | `a` when `b` is NaN or `a` is greater than `b`, else `b` (its properties are FmaxFminNaN) |
| Functors.Fmin | src/posit8.cc:1776-1783 | `a` when `b` is NaN or `a` is less than `b`, else `b` (its properties are FmaxFminNaN) |
| Functors.HeavisideByBits | src/posit8.cc:1377-1396 | NaR propagates, zero gives `h0`, a negative value gives 0 and a positive one gives 1 |
| Functors.SignByBits | src/posit8.cc:1521-1535 | NaR and zero are returned unchanged, negatives give -1 and positives give 1 |
| Functors.MaximumMinimumNaN | src/posit8.cc:1752-1767 | `maximum`/`minimum` are NaR exactly when an argument is NaR, and otherwise return one argument that is at least (at most) both |
| Functors.FmaxFminNaN | src/posit8.cc:1768-1783 | `fmax`/`fmin` are NaR only when both arguments are; one NaR argument yields the other, and two reals agree with `maximum`/`minimum` |
| ArrFuncs.Compare | src/posit8.cc:726-750 | -1 exactly when `b1 < b2`; 1 exactly when not `b1 < b2` and either `b2 < b1` or only `b2` is NaR; otherwise 0 |
| ArrFuncs.CompareCases | src/posit8.cc:733-749 | under an IEEE-like order: reals compare by the order, a real against a second NaR gives 1, a first NaR gives 0 against anything, and -1 never comes from a NaN branch |
| ArrFuncs.CompareNotAntisymmetric | src/posit8.cc:741-748 | compare(1, NaR) == 1 but compare(NaR, 1) == 0 |
| ArrFuncs.SignedLessIsIeeeOrder | src/posit8.cc:726-750 | the two's complement order of the non-NaR patterns is an IEEE-like order, so the order hypothesis can be met |
| ArrFuncs.CompareRawOrder | src/posit8.cc:733-749 | if the library's `<` compares raw two's complement patterns, the compare is antisymmetric, 0 exactly on equal patterns, and puts NaR before every real |
| ArrFuncs.CompareNaNLast | src/posit8.cc:741-748 | the compare the NaN branches call for; the answer is -1, 0 or 1, and its order properties are CompareNaNLastOrder |
| ArrFuncs.CompareNaNLastOrder | src/posit8.cc:726-750 | the corrected compare is antisymmetric, zero exactly on equal patterns, transitive, sorts NaR after every real, and equals the source's compare on reals |
| ArrFuncs.ArgMax | src/posit8.cc:752-766 | status 0; `*max_ind` is unchanged when no element among the first n is a real, and otherwise is the first index of the greatest real |
| ArrFuncs.ArgMin | src/posit8.cc:768-782 | status 0; `*min_ind` is unchanged when no element is a real, and otherwise is the first index of the least real |
| Memory.Memcpy | src/posit8.cc:653-671 | `memcpy` of n bytes between disjoint ranges stores the source bytes at the destination and changes nothing else |
| CopySwap.ByteSwap16 | src/posit8.cc:639-643 | the two bytes at p are exchanged and nothing else changes |
| CopySwap.CopyLoop | src/posit8.cc:653-672 | the strided copy loop leaves the memory in the state of n element copies, each optionally reversed |
| CopySwap.CopySwapN | src/posit8.cc:645-674 | a null source changes nothing; otherwise every path (swap, contiguous block, strided) leaves the same state of n two-byte element copies |
| CopySwap.ContiguousCopy | src/posit8.cc:662-665 | with both strides 2, n element copies equal one block `memcpy` of 2n bytes |
| CopySwap.CopySwapOne | src/posit8.cc:676-687 | a null source changes nothing; otherwise two bytes are copied and reversed when swap is set |
| CopySwap.CopyIsUnary | src/posit8.cc:645-674 | the copy loop is the strided unary loop with the copy (or the byte reversal) as its functor |
| CopySwap.CopyWrites | src/posit8.cc:645-674 | without overlap between elements, each destination element holds its source element (reversed when swapping) and every other byte is unchanged |
| CopySwap.CopySwapIsOneElement | src/posit8.cc:676-687 | the single-element hook is the n = 1 case of the strided copy |
| CopySwap.CopyWidthOverrun | src/posit8.cc:658-671 | with 1-byte strides, one element copy also overwrites the byte after the destination, and swapping puts the byte after the source into the destination |
| CopySwap.ReversedInvolution | src/posit8.cc:639-643 | swapping twice restores the bytes |
| CopySwap.OneByteSwapIgnored | src/posit8.cc:656-661 | for 1-byte elements a byte swap changes nothing |
| CopySwap.CopySwapNCorrected | src/posit8.cc:645-674 | copying one byte per element, the result is the state of n element copies whatever the swap flag |
| CopySwap.CopySwapOneCorrected | src/posit8.cc:676-687 | copying one byte, the destination byte becomes the source byte and nothing else changes |
| UFuncLoops.BinaryCall | src/posit8.cc:1043-1076 | the memory is the state after n strided iterations, the reported error is chosen from the accrued flags, and the saved environment is restored |
| UFuncLoops.BinaryWrites | src/posit8.cc:1055-1063 | without interference each output element is f of its two input elements, no byte outside the outputs changes, and the accrued flags are those some iteration raised |
| UFuncLoops.BinaryOutput | src/posit8.cc:1055-1063 | after k iterations output j < k holds f of the original inputs j |
| UFuncLoops.BinaryFlagsOriginal | src/posit8.cc:1053-1063 | the accrued flags are the union of the flags each iteration raises on the original inputs |
| UFuncLoops.SignaledError | src/posit8.cc:1064-1074 | no error exactly when no tested flag is set; otherwise a set flag first in the order invalid, divide-by-zero, overflow, underflow |
| UFuncLoops.UnaryCall | src/posit8.cc:992-1004 | the memory is the state after n strided unary iterations |
| UFuncLoops.UnaryWrites | src/posit8.cc:992-1004 | each output element is g of its input element, and nothing outside the outputs changes |
| UFuncLoops.DivmodCall | src/posit8.cc:1266-1289 | the memory is the state after n iterations, each writing the quotient and the remainder |
| UFuncLoops.DivmodWrites | src/posit8.cc:1266-1289 | without interference each quotient and remainder output holds the functor's result on the original inputs, and nothing else changes |
| Registration.TypeNumFromName | src/posit8.cc:1881 | the lookup yields `NPY_NOTYPE` exactly when no user type has the name, and otherwise the number of the first one with it |
| Registration.RegisterCastSpec | src/posit8.cc:968-983 | one cast registration succeeds exactly when its two or three calls are accepted, and then it has added both cast edges and, for a safe entry, the safe edge |
| Registration.RegisterCastsSpec | src/posit8.cc:1939-1998 | the cast chain succeeds exactly when every call is accepted, registers nothing outside the table, and on success every edge and exactly the safe ones as safe |
| Registration.CastTableSafety | src/posit8.cc:1939-1998 | float and double are the only safe casts |
| Registration.RegisterUFuncsSpec | src/posit8.cc:1152-1177 | the loop chain succeeds exactly when every ufunc exists with the loop's argument count and its loop is accepted, and on success all loops are registered |
| Registration.RegisterTablesSpec | src/posit8.cc:1939-2191 | casts then loops: success exactly when all their calls are accepted, with all their edges registered |
| Registration.RegisterType | src/posit8.cc:1912-1920 | a refused registration returns -1 and changes nothing; otherwise the next type number, naming a new `posit8_2` type with `argmax`, with the types before it kept |
| Registration.RegisterCast | src/posit8.cc:968-983 | the cast to the posit type, then the cast from it, then for a safe entry the safe-cast mark; stops at the first refusal (its contract is RegisterCastSpec) |
| Registration.RegisterCasts | src/posit8.cc:1939-1998 | the `RegisterPosit8_2Cast` calls in order, stopping at the first failure (its contract is RegisterCastsSpec) |
| Registration.RegisterUFunc | src/posit8.cc:1152-1177 | look the ufunc up, compare its argument count with the loop's signature, register the loop (its contract is RegisterUFuncsSpec) |
| Registration.RegisterUFuncs | src/posit8.cc:2011-2187 | the `&&` chain of `RegisterUFunc` calls, stopping at the first failure (its contract is RegisterUFuncsSpec) |
| Registration.InitializeFrom | src/posit8.cc:1857-2192 | `Initialize` with the lookup name as a parameter; its properties are InitializeAdopts and InitializeRegisters |
| Registration.InitializeSpec | src/posit8.cc:1857-2192 | `Initialize` as written, looking up `posit<8,2>` |
| Registration.RegisterSpec | src/posit8.cc:2194-2211 | `RegisterNumpyPosit8_2`: true at once unless `npy_posit8_2` is `NPY_NOTYPE`, otherwise `Initialize` (its properties are RegisterIdempotent and RegisterOnce) |
| Registration.InitializeAdopts | src/posit8.cc:1881-1894 | a type found under the lookup name with an `argmax` hook is adopted under the number found, with nothing registered; otherwise nothing is adopted |
| Registration.InitializeRegisters | src/posit8.cc:1896-2192 | without adoption: nothing changes, or the type registration fails leaving -1, or exactly one new type named `posit8_2` is created under the next number; success exactly when every call is accepted, with all casts and loops registered |
| Registration.LookupAppend | src/posit8.cc:1881 | registering one more type changes the lookup only for a name that was not found before and is the new type's name |
| Registration.OwnTypeNotFound | src/posit8.cc:1881-1924 | after this extension registers, the lookup under `posit<8,2>` still finds nothing to adopt, and a second successful load adds a second `posit8_2` type |
| Registration.InitializeByTypeName | src/posit8.cc:1857-2192 | `Initialize` with the lookup made under the type's own name `posit8_2` |
| Registration.ReloadAdopts | src/posit8.cc:1881-1894 | with that lookup, a second load adopts the type the first load registered, under the same number, and registers nothing |
| Registration.InitializeWithoutNumpy | src/posit8.cc:1859-1872 | without NumPy, `Initialize` fails and changes nothing |
| Registration.RegisterIdempotent | src/posit8.cc:2194-2211 | once `npy_posit8_2` is set, registering returns true and changes nothing, and a successful registration sets it |
| Registration.RegisterOnce | src/posit8.cc:2194-2211 | a successful registration from load time leaves the globals naming one type with `argmax`: the adopted `posit<8,2>` type with the host's types unchanged, or a single new `posit8_2` type under the next number |
| Registration.RegisterAfterRefusedType | src/posit8.cc:1919-1924 | after a refused `PyArray_RegisterDataType`, `npy_posit8_2` is -1 and the next registration reports success with no type |
| Registration.RegisterCheckedSound | src/posit8.cc:2194-2211 | with the corrected guard, success always means `npy_posit8_2` names the type `posit8_2_type_ptr` stands for (an adopted `posit<8,2>` one or this extension's `posit8_2` one), and consistency of the globals is kept |
| Registration.CheckedAfterPartialFailure | src/posit8.cc:1926-1932 | with the corrected guard, a refused `dtype` attribute still fails with no cast or loop registered, and the next call reports success |
| Registration.Extension.Initialize | src/posit8.cc:1857-2192 | the step-by-step initialization leaves the globals and the host as the initialization function gives |
| Registration.Extension.RegisterNumpyPosit8_2 | src/posit8.cc:2194-2211 | the registration entry point leaves the globals and the host as the registration function gives |
| Registration.Extension.RegisterNumpyPosit8_2Checked | src/posit8.cc:2194-2211 | the entry point with the corrected guard |

## Left out

- Posit arithmetic, rounding, the posit order `<` and the conversion to float belong to the posit library. They are parameters of the model: `less`, `value` and the functors.
- The float-based functors, `Fill` and `DotFunc`: they compute through single-precision floats.
- `NonZero`: a one-line posit comparison with zero, outside the byte-level core.
- `GetItem`/`SetItem`: Python object glue. They box or unbox a scalar around one `copyswap`.
- `UnaryUFunc2::Call` (`modf`, `frexp`): its only functors are float-based.
- Hardware floating-point state: `feholdexcept`, `fetestexcept` and `fesetenv` act on an abstract set of flags.
- UnaryCall and DivmodCall take their functors as pure byte functions that raise no flags. The source's unary and divmod loops do not hold the environment, so flags their functors raise stay set for the caller. The model does not capture that.
- `NPyCast` and its type-name dispatch.
- The Python object glue: the scalar type, `RichCompare`, `Repr`/`Str` and module init.
- The debug output of `CompareFunc`.
- The Python error state that `RegisterNumpyPosit8_2` and the loops set, kept only as the reported message.
- NumPy's cast and loop registries are modelled as sets. `ULong` and `UInt64` are distinct tags here, though on LP64 platforms they are the same NumPy type.
- `PyType_Ready` and the `dtype` attribute are modelled only as calls that may be refused.
- UFuncLoops.BinaryCall, UnaryCall, DivmodCall and CopySwap.CopySwapN take the element count as a `nat`. For a negative count the source's strided loops run zero times. The contiguous path of CopySwapN instead calls `memcpy(dst, src, n * sizeof(uint16_t))` (`src/posit8.cc:665`), where a negative `n` converts to a huge `size_t`. That case is not modelled.
- The element size `sizeof(posit8_2)` is taken to be one byte. The source does not fix it: it is the size the posit library gives `posit<8,2>`, whose bits are a `bitblock<8>`. CopySwap.CopyWidthOverrun, CopySwap.OneByteSwapIgnored, CopySwap.CopySwapNCorrected, CopySwap.CopySwapOneCorrected and the NextAfter reading of the low byte rest on that choice.
- NextAfter: `posit8_2(quiet_NaN)` is taken to be NaR, as the posit library converts NaN.
- NextAfter: `memcpy` sets only the low byte of the `long`s `from_as_int` and `to_as_int`. The model takes their other bytes as zero; in the source they are uninitialized.
- CopySwap.CopySwapNCorrected: has no contiguous fast path. ContiguousCopy is proved only for 2-byte elements, the width the source copies.
- CopySwap.CopyWidthOverrun: the overrun is stated for every memory, not only for a concrete buffer.
- RegisterCheckedSound: the corrected guard reports success on a later call after a failure that came once the type was registered. Such failures are a refused `dtype` attribute, cast or loop. CheckedAfterPartialFailure shows the case. Telling those failures apart needs state the source does not keep.
- NumPy's name lookup is modelled on the `tp_name` of each registered type, as `PyArray_TypeNumFromName` compares it. Types registered by other modules are given by the host's list of user types.

## Findings

| source | as written | input that shows it | evidently intended | confidence | as-written member | corrected member |
|---|---|---|---|---|---|---|
| src/posit8.cc:1838-1847 | the step is chosen on sign-magnitude fields, but posits are two's complement | from 0 toward -1 gives 0x81, the most negative real; from 0xFF toward 1 gives 0xFE; from 0x81 toward 1 gives NaR | the adjacent posit toward `to` (one two's complement step) | not executed | Functors.NextAfterWrongDirection | Functors.NextAfterToward |
| src/posit8.cc:645-687 | each element copy moves `sizeof(uint16_t)` = 2 bytes, but an element is 1 byte | memory [7,9,0,0], source 0, destination 2, strides 1, n 1: the result is [7,9,7,9], or [7,9,9,7] with swap | copy one byte per element; swapping a 1-byte element is a no-op | not executed | CopySwap.CopyWidthOverrun | CopySwap.CopySwapNCorrected |
| src/posit8.cc:741-748 | the second NaN branch repeats the first with its operands exchanged, so it is dead and the answers are not antisymmetric | compare(1, NaR) == 1 but compare(NaR, 1) == 0 when `<` is false on NaR | NaNs sort last: real before NaR is -1, NaR before real is 1 | not executed | ArrFuncs.CompareNotAntisymmetric | ArrFuncs.CompareNaNLastOrder |
| src/posit8.cc:1919-1924 | a refused `PyArray_RegisterDataType` stores -1, which the guard does not treat as unset | NumPy refuses the type registration once: the first call fails, and the second returns true with `npy_posit8_2 == -1` | report success only when a type number is held | not executed | Registration.RegisterAfterRefusedType | Registration.RegisterCheckedSound |
| src/posit8.cc:1881-1894 | the lookup for an existing registration uses the name `posit<8,2>`, but this extension's own type object is named `posit8_2` (`src/posit8.cc:527`), and NumPy looks types up by that name | one copy of the extension registers successfully; a second copy loaded into the same NumPy finds nothing under `posit<8,2>` and registers a second `posit8_2` type | look up the name the type is registered under, so that a second copy adopts the first copy's type | not executed | Registration.OwnTypeNotFound | Registration.ReloadAdopts |
