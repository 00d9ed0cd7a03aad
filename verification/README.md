# Verified model of three daScript components

This project models three parts of daScript that share no code, and proves what they promise.

1. **Decimal to binary** (`include/fast_float/fast_float.h`): the text of every literal becomes the binary float nearest to
   the number written, ties to even, as section 4.3.1 of IEEE 754-2019 asks for. The specification is
   `FloatFormat.NearestEven`: among the numbers that the bit patterns stand for, none is nearer, and an equally near one
   means an even last digit. Nothing in it mentions an algorithm, and `Literals.LongestParse` says in the same way which
   part of a text is the literal. The statement about whole texts is `FromChars.FromChars`, for both formats and every
   length and exponent. It covers the machine's own fast path, the table of 128-bit powers of five with the product that
   often skips its second half, the digit comparison with its fixed-capacity big integers, and the one family of literals
   that goes wrong, those whose written exponent the parser caps.
2. **The hash maps** (`include/das_hash_map/das_hash_map.h`): open addressing with linear probing, tombstones and two kinds
   of rehash. Every run agrees with a finite map, every probe ends, in a run without reserve all rehashes
   together scan at most four slots per operation, the insert-only map is slot for slot the general one, and iteration
   visits every entry once. Agreement with a finite map needs keys whose raw hashes are not one of the two sentinels; for
   each of the header's hashers it is said which keys those are.
3. **Two stable sorts** (`examples/sort/bench_stable_sort.cpp`): both leave the one stably sorted permutation.

Machine integers are integers with their wrap-around written out (`% WORD` for 64 bits). A float is its bit pattern
without the sign. `hash & (capacity - 1)` is written `hash % capacity`; that capacities are powers of two is proved.
Classes have the fields of the originals, and each method's contract gives its whole effect, as a function of the old state or
as the number it computes.

| files | contents |
|---|---|
| Wrappers, Arith | options; powers, products and quotients |
| LimbValue, LimbOps, BigInt | 64-bit limbs and the numbers they stand for; `stackvec` and `bigint` |
| FloatFormat, Rounding, RoundingCorrect | binary formats, correct rounding, `round` |
| PowersOfFive, PowerTable | what the rows of the table of powers of five must be, and the table, every row checked |
| FastProduct, FastRounding, ComputeFloat, FastError | the approximated product, `compute_float` and `compute_error` |
| FastPath | Clinger's fast path on a machine that follows IEEE 754 |
| Literals, LiteralText | the literals of a format and their longest parse; the same on characters |
| Digits, Swar, NumberString | digit runs, eight digits at once, the parser for number literals |
| Numerals, IntString | numbers as a printer writes them in a base, and the integer parser |
| ParseMantissa, StickyDigits, Halfway, DigitComp, SlowPath | the digit comparison |
| CappedExponent, FromChars, BitPatterns | the parser's cap on exponents; from text to float; which bits each number has |
| ProbeTable, MapRefinement, HashRuns, HashSentinels, HashIteration | the hash table as a value, and what its runs do |
| HashMap, InsertOnly | the map classes |
| StringHash, Hashers | the string hash, and the keys that each hasher sends to a sentinel |
| StableOrder, StableMerge, StableIndex, StableSorts | what a stable sort is, and the two sorts |

A row of `PowerTable` gives the two words of the source's table, and before them where the row stands and the factors that
lead to it from a 256-bit value of the power 5^(28j). The numbers on its second line are a basis of a plane lattice. They
show that no 64-bit word times the row comes within 2^64 below a multiple of 2^137, so cutting the power off changes no kept
bit.

## Model

| member | source | states |
|---|---|---|
| LimbValue.LeadingZeroesCorrect | include/fast_float/fast_float.h:387-395 | the mask-and-shift cascade counts the zero bits above the top one: the shifted word has bit 63 set |
| LimbValue.UMul128Exact | include/fast_float/fast_float.h:425-434 | the four 32-bit products with their carries are the exact 128-bit product |
| LimbValue.ScalarMulExact | include/fast_float/fast_float.h:2609-2631 | low limb and carry together are x * y + carry, and the new carry fits one limb |
| LimbOps.MulLimbsProduct | include/fast_float/fast_float.h:2662-2671 | the limbs that small_mul leaves are the product, and it fits exactly if no limb is lost |
| LimbOps.AddLimbsSum | include/fast_float/fast_float.h:2637-2650 | the limbs that the carry loop leaves are the sum, and it fits exactly if no limb is lost |
| LimbOps.AddSpanValue | include/fast_float/fast_float.h:2685-2696 | adding limb by limb with two overflow flags gives the sum and one carry |
| LimbOps.PartialProductStep | include/fast_float/fast_float.h:2723-2735 | one turn of the grade-school loop adds x times the next limb of y at its place, and neither what it adds nor the sum so far exceeds the whole product |
| LimbOps.PrefixBelow | include/fast_float/fast_float.h:2723-2735 | the limbs of y read so far never stand for more than all of y |
| LimbOps.LargePower | include/fast_float/fast_float.h:2765-2773 | the five-limb table is 5^135 |
| LimbOps.MaxNativePower | include/fast_float/fast_float.h:2957-2986 | the native step 7450580596923828125 is 5^27 |
| LimbOps.LimitIs | include/fast_float/fast_float.h:2415-2416 | what does not fit the buffer is 2^3968 and more |
| LimbOps.ShlBitsProduct | include/fast_float/fast_float.h:2863-2886 | the shifted limbs and the carry limb are the number times 2^n |
| LimbOps.BitLengthCorrect | include/fast_float/fast_float.h:2923-2941 | 2^(bits-1) <= number < 2^bits for a normalized number |
| LimbOps.Hi64Correct | include/fast_float/fast_float.h:2810-2834 | the top word is the 64 leading bits, and truncated says whether any lower bit, in any limb, is set |
| BigInt.StackVec.TryPush | include/fast_float/fast_float.h:2471-2478 | fails exactly at 62 limbs and then changes nothing |
| BigInt.StackVec.TryExtend | include/fast_float/fast_float.h:2486-2493 | fails exactly if the span does not fit and then changes nothing |
| BigInt.StackVec.TryResize | include/fast_float/fast_float.h:2497-2517 | truncates, or extends with the given limb, unless past the capacity |
| BigInt.StackVec.Normalize | include/fast_float/fast_float.h:2531-2535 | drops leading zero limbs and keeps the number |
| BigInt.StackVec.SmallMul | include/fast_float/fast_float.h:2662-2671 | multiplies by a word, and succeeds exactly if the product is below 2^3968 |
| BigInt.StackVec.SmallAddFrom | include/fast_float/fast_float.h:2637-2650 | adds a word at a limb position, or at the first free limb if that is lower, and succeeds exactly if the sum fits |
| BigInt.StackVec.LargeAddFrom | include/fast_float/fast_float.h:2677-2703 | adds a span at a limb position, and succeeds exactly if span and sum fit |
| BigInt.StackVec.LongMul | include/fast_float/fast_float.h:2715-2739 | computes the exact product; for normalized operands it fails only if that does not fit; an empty span leaves the number |
| BigInt.StackVec.LargeMul | include/fast_float/fast_float.h:2744-2751 | the same, whichever of the two multiplications is chosen |
| BigInt.StackVec.Pow5 | include/fast_float/fast_float.h:2957-2986 | multiplies by 5^exp in steps of 135, 27 and the rest, and succeeds exactly if the result fits |
| BigInt.StackVec.ShlBits | include/fast_float/fast_float.h:2863-2886 | shifts by less than a limb; succeeds exactly if the product with 2^n fits |
| BigInt.StackVec.ShlLimbs | include/fast_float/fast_float.h:2889-2907 | puts zero limbs below, unless the number is zero or too long |
| BigInt.StackVec.Shl | include/fast_float/fast_float.h:2910-2920 | multiplies by 2^n; succeeds exactly if a nonzero result fits |
| BigInt.StackVec.Pow10 | include/fast_float/fast_float.h:2989-2992 | multiplies by 10^exp; for a nonzero number it succeeds exactly if the result fits |
| BigInt.StackVec.Compare | include/fast_float/fast_float.h:2842-2859 | gives the sign of the difference of two normalized numbers |
| BigInt.StackVec.Hi64 | include/fast_float/fast_float.h:2810-2834 | left-aligned leading 64 bits and a sticky bit for everything below |
| BigInt.StackVec.NonZero | include/fast_float/fast_float.h:2521-2529 | true exactly if one of the limbs below the given number of top ones is not zero; false if there is none |
| FloatFormat.UnitsOrder | include/fast_float/fast_float.h:735-747 | bit patterns are ordered as the numbers they stand for, across subnormals and binades |
| FloatFormat.NearestByMidpoints | include/fast_float/fast_float.h:3386-3398 | correctly rounded exactly if not beyond either neighbouring midpoint, and on one only if even |
| FloatFormat.NearestMonotone | include/fast_float/fast_float.h:3681-3683 | rounding is monotone |
| FloatFormat.NearestSqueezed | include/fast_float/fast_float.h:3681-3683 | what lies between two numbers that round alike rounds like them |
| BitPatterns.OwnPattern | include/fast_float/fast_float.h:626-638 | every finite bit pattern, read by the fields that IEEE 754 gives it, is the correctly rounded one of its own number |
| BitPatterns.OneIs | include/fast_float/fast_float.h:626-638 | 1 rounds to 0x3FF0000000000000, or 0x3F800000, and to nothing else |
| BitPatterns.SmallestIs | include/fast_float/fast_float.h:626-638 | 5e-324, or 1e-45, rounds to the pattern 1 |
| BitPatterns.LargestIs | include/fast_float/fast_float.h:626-638 | the largest finite number rounds to 0x7FEFFFFFFFFFFFFF, or 0x7F7FFFFF |
| BitPatterns.TwiceLargestIs | include/fast_float/fast_float.h:626-638 | twice that rounds to 0x7FF0000000000000, or 0x7F800000 |
| Rounding.RoundNearestTieEven | include/fast_float/fast_float.h:3118-3141 | the shift and the callback's answer for the dropped bits, also for shifts of 64 bits |
| Rounding.RoundDown | include/fast_float/fast_float.h:3144-3151 | the shift, also of 64 bits |
| Rounding.Round | include/fast_float/fast_float.h:3086-3114 | the bits are the cut-off float or its successor, capped at infinity: subnormals, the carry into the next binade and the carry into infinity included |
| Rounding.FinishedBits | include/fast_float/fast_float.h:3691-3693 | the range test on the two fields is a test of the bit pattern for zero and infinity |
| RoundingCorrect.FloorCodeBrackets | include/fast_float/fast_float.h:3086-3114 | a value with these leading bits lies between the cut-off float and the next |
| RoundingCorrect.StickyRounding | include/fast_float/fast_float.h:3314-3331 | 64 leading bits and one sticky bit decide the nearest-even float |
| Halfway.HalfwayIsMidpoint | include/fast_float/fast_float.h:3044-3083 | the extended halfway value is the midpoint between a finite float and its successor, in every binade |
| Halfway.ComparesWithMidpoint | include/fast_float/fast_float.h:3338-3384 | after scaling by 5^-e and 2^k the two big integers compare as the value and the midpoint do |
| Halfway.OrdDecides | include/fast_float/fast_float.h:3338-3384 | rounding up on a greater, or an equal and odd, comparison is correct rounding |
| Halfway.HalfwayFits | include/fast_float/fast_float.h:3338-3384 | both scaled numbers fit in 62 limbs |
| DigitComp.PositiveDigitComp | include/fast_float/fast_float.h:3314-3331 | the correctly rounded value of any nonzero big integer times 10^exponent that fits, overflow to infinity included |
| DigitComp.NegativeDigitComp | include/fast_float/fast_float.h:3338-3384 | the correctly rounded value of digits times a negative power of ten, whenever the value cut off is finite and close enough below |
| PowersOfFive.DistanceShown | include/fast_float/fast_float.h:2311-2314 | a lattice basis whose first vector has too large a word, and whose two vectors are 2^64 apart, proves that no product of a word and the row is just below a multiple of 2^137 |
| PowersOfFive.AnchorBrackets | include/fast_float/fast_float.h:1530-1531 | the 256-bit values of the powers 5^(28j), from 5^-364 to 5^308, are within their stated slack |
| PowersOfFive.Cut | include/fast_float/fast_float.h:1530-1531 | a row whose literals pass the checks is its power of five cut off to 128 bits, and its products keep their distance |
| PowersOfFive.UpOdd | include/fast_float/fast_float.h:1530-1531 | a row from 5^-27 to 5^-1 whose literals pass the checks is the next 128-bit number above its power, and its high word alone never gives a product that looks like a tie |
| PowersOfFive.UpEven | include/fast_float/fast_float.h:1530-1531 | the same for the rows whose high word is even |
| PowersOfFive.Whole | include/fast_float/fast_float.h:1530-1531 | a row from 5^0 to 5^55 whose literals pass the checks is its power exactly |
| PowerTable.PowerOfFive128 | include/fast_float/fast_float.h:1531-2183 | all 651 rows of the table are right: cut off, the next number up, or exact, depending on the exponent |
| FastProduct.ProductIs | include/fast_float/fast_float.h:2210-2231 | the approximation is the top 128 bits of the 192-bit product, or the first product alone with low bits not all ones |
| FastProduct.KeptBits | include/fast_float/fast_float.h:2219-2228 | skipping the second product never changes the bits kept: no carry can reach them |
| FastProduct.KeptExactly | include/fast_float/fast_float.h:2311-2314 | the kept bits of the product with the table's row are those of w * 5^q itself, for every word and every exponent from -342 to 308 |
| FastProduct.NoTieFarDown | include/fast_float/fast_float.h:2337-2338 | below 10^-27 no value lies on a boundary of kept bits, so subnormals have no ties |
| FastProduct.TieInRange | include/fast_float/fast_float.h:2350-2353 | a value halfway between two floats needs an exponent in the round-to-even range of the format |
| FastProduct.TieShows | include/fast_float/fast_float.h:2353-2358 | within that range a tie shows as a low word of at most 1 and a high word with nothing below its kept bits, and nothing else shows so, although the second product may be skipped |
| FastRounding.ProductInUnits | include/fast_float/fast_float.h:2316-2325 | the exponent formula places the product: comparing it with x units of 2^n is comparing w * 10^q with x steps of the format |
| FastRounding.KeptRounds | include/fast_float/fast_float.h:2363-2364 | kept bits with the rounding bit, and whether the value is on the boundary, decide the nearest-even float, subnormal or not |
| FastRounding.FastWindowHolds | include/fast_float/fast_float.h:2301-2325 | all of this together for the product that compute_float has at hand |
| ComputeFloat.FlipTestIsTie | include/fast_float/fast_float.h:2348-2361 | the flip-bit test fires exactly when w * 10^q lies halfway between two floats of which the lower is even |
| ComputeFloat.NormalRounds | include/fast_float/fast_float.h:2350-2376 | mantissa, exponent and flipped rounding bit give the nearest-even float wherever the result is normal |
| ComputeFloat.SubnormalRounds | include/fast_float/fast_float.h:2325-2348 | shifting the kept bits into place and rounding up on the rounding bit gives the nearest-even float wherever it is subnormal, or just not |
| ComputeFloat.TooSmallRounds | include/fast_float/fast_float.h:2287-2292 | zero, and every word below the smallest power of ten, rounds to zero |
| ComputeFloat.TooLargeRounds | include/fast_float/fast_float.h:2293-2298 | every nonzero word above the largest power of ten rounds to infinity |
| ComputeFloat.Compute | include/fast_float/fast_float.h:2283-2376 | the correctly rounded value of w * 10^q, for every 64-bit w, every exponent q and both formats |
| Digits.AccumulateValue | include/fast_float/fast_float.h:1251-1257 | the wrapped digit accumulator is the number written, modulo 2^64 |
| Digits.AccumulateExact | include/fast_float/fast_float.h:1251-1257 | it is the number itself as long as that fits |
| Digits.LeadingDigit | include/fast_float/fast_float.h:3023-3039 | a run of digits without a leading zero has its length's magnitude |
| Swar.FastTestIsExact | include/fast_float/fast_float.h:1114-1117 | the carry-and-borrow test holds exactly if all eight bytes are digits |
| Swar.ParseEightIsExact | include/fast_float/fast_float.h:1091-1099 | two multiplications give the decimal value of any eight digits |
| Swar.LoopParseIfEightDigits | include/fast_float/fast_float.h:1192-1198 | eight digits at a time leave the accumulator that one at a time would |
| Swar.ParseDigitRun | include/fast_float/fast_float.h:1273-1281 | both loops together stop where the digits end, with the plain accumulator, for every buffer |
| Literals.ScanIsLongestParse | include/fast_float/fast_float.h:1218-1337 | the scan gives a literal if and only if that is the longest literal at the front of the text, sign, point, exponent mark and exponent sign included, and the format allows it |
| Literals.GreedyLongest | include/fast_float/fast_float.h:1218-1337 | taking as much as possible of each part in turn gives the longest literal, and no other is as long |
| Literals.TextIsScanned | include/fast_float/fast_float.h:1218-1337 | every literal that the format allows, in any of its spellings, is scanned back from its text |
| LiteralText.ScientificIsRead | include/fast_float/fast_float.h:1295-1331 | digits, an optional point and digits, 'e' or 'E' (in Fortran's format 'd', 'D' or only a sign), '+', '-' or nothing, and digits are read to their end, with the last digit's place, whatever character that is no digit follows |
| LiteralText.FixedIsRead | include/fast_float/fast_float.h:1247-1335 | a number that no exponent follows is read to the end of its digits if the format allows that, and otherwise refused |
| LiteralText.WrittenIsScanned | include/fast_float/fast_float.h:1218-1337 | either way the digits, the place and the end are those of the characters |
| LiteralText.NoDigitsIsRefused | include/fast_float/fast_float.h:1286-1294 | a text with neither a digit nor a point and a digit in front, after an optional '-', is refused |
| LiteralText.JsonIsStrict | include/fast_float/fast_float.h:1261-1291 | in JSON a digit comes first, a zero is followed by no digit, and a point by one |
| LiteralText.ExponentIsRequired | include/fast_float/fast_float.h:1332-1335 | a scientific format that is not fixed takes only numbers with an exponent |
| NumberString.CappedValueExact | include/fast_float/fast_float.h:1322-1328 | the capped exponent is the one written exactly if that, without its last digit, is below 2^28 |
| NumberString.PlaceIsExact | include/fast_float/fast_float.h:1322-1330 | the place of the last digit is right if and only if the exponent is below the cap; otherwise it is too close to zero, and still at least 2^28 away up to the fraction's length |
| NumberString.ParseExponent | include/fast_float/fast_float.h:1295-1335 | the accumulated exponent and where it ends, or its absence or refusal, for the longest exponent part in the format |
| NumberString.CountSignificant | include/fast_float/fast_float.h:1344-1353 | after the leading zeros are counted off, more than 19 exactly if more than 19 digits are significant |
| NumberString.FirstNineteen | include/fast_float/fast_float.h:1355-1381 | the number of the first 19 significant digits, unwrapped, and the exponent of the last one |
| NumberString.ParseNumberString | include/fast_float/fast_float.h:1218-1386 | accepts exactly the texts whose longest literal the format allows, and gives that literal's sign, digit spans and end, and mantissa and exponent of its first 19 significant digits |
| NumberString.ValueIsExact | include/fast_float/fast_float.h:1218-1386 | without too many digits, the mantissa is the literal's digits, and the exponent is the written one if and only if that is below the cap |
| NumberString.ValueIsBracketed | include/fast_float/fast_float.h:1218-1386 | with too many, 10^18 <= mantissa < 10^19, and the digits lie between mantissa and mantissa + 1 at the prefix's place, which is the written one if and only if that is below the cap |
| IntString.TablesAreRight | include/fast_float/fast_float.h:856-871 | for each base the tables hold the longest 64-bit length and the smallest number that long; one more digit never fits |
| IntString.ParseBaseDigits | include/fast_float/fast_float.h:1420-1430 | where the digits of the base end, and their number modulo 2^64, eight at a time in base 10 |
| IntString.CastNegation | include/fast_float/fast_float.h:1466-1479 | the conversion chain for negative numbers gives the negation, down to the smallest value of the type |
| IntString.ParseIntString | include/fast_float/fast_float.h:1388-1487 | a text that begins with a numeral of the base, in either case and with any leading zeros, gives the number or the range error that its sign and the type demand, unless the overflow check is fooled, in which case it gives the low 64 bits; any other text is no number |
| IntString.NumeralIsParsed | include/fast_float/fast_float.h:1388-1487 | the verdict on a numeral that a printer could have written, followed by no digit or letter of the base |
| IntString.NoNumeral | include/fast_float/fast_float.h:1435-1447 | a text in front of which no printer could have written a numeral is no number |
| IntString.RunEndsAt | include/fast_float/fast_float.h:837-854 | a digit run ends exactly at the first character that is no digit and no letter, of either case, of the base |
| IntString.WritesValue | include/fast_float/fast_float.h:1420-1430 | the runs that a printer writes for v, by remainder and quotient, are the runs whose number is v |
| IntString.LimitsAre | include/fast_float/fast_float.h:1459-1464 | the smallest and largest values of the eight types |
| IntString.NarrowIsRight | include/fast_float/fast_float.h:1449-1464 | for types of 8, 16 and 32 bits and every base the answer is right |
| IntString.DecimalInt64IsRight | include/fast_float/fast_float.h:1449-1464 | for signed 64-bit numbers in base 10 the answer is right |
| IntString.PowerOfTwoIsRight | include/fast_float/fast_float.h:1449-1464 | for bases 2, 4 and 16 the answer is right for every type |
| IntString.InRangeIsRight | include/fast_float/fast_float.h:1388-1487 | every number that the type can hold is parsed exactly, in every base |
| IntString.WrappedDecimal | include/fast_float/fast_float.h:1449-1464 | for unsigned 64-bit numbers the check does not catch 28446744073709551616, which is read as 10^19 |
| IntString.PrintedIsParsed | include/fast_float/fast_float.h:1388-1487 | every value of every type, printed in any base, is read back and the text consumed |
| ParseMantissa.SkipZeros | include/fast_float/fast_float.h:3154-3169 | stops at the first byte that is not a zero digit |
| ParseMantissa.IsTruncated | include/fast_float/fast_float.h:3175-3192 | true exactly if some remaining byte is not a zero digit |
| ParseMantissa.AddNative | include/fast_float/fast_float.h:3219-3222 | the number times the power plus the value, with no limb lost although the result codes are ignored |
| ParseMantissa.RoundUpBigint | include/fast_float/fast_float.h:3225-3230 | appends the digit 1 |
| ParseMantissa.TakeDigits | include/fast_float/fast_float.h:3252-3275 | takes digits in native words until the digits or the room end, without losing a limb |
| ParseMantissa.Parse | include/fast_float/fast_float.h:3235-3312 | the number of the first maxDigits significant digits, with a digit 1 appended exactly if a nonzero digit was dropped |
| StickyDigits.StickyKeepsOrder | include/fast_float/fast_float.h:3235-3312 | against any whole number at the last kept position, the cut digits compare as all digits do |
| StickyDigits.MiddleAligned | include/fast_float/fast_float.h:701-706 | midpoints between floats that matter are whole numbers at the 769th (114th) digit position |
| StickyDigits.StickyRounds | include/fast_float/fast_float.h:3235-3312 | the float nearest to the cut digits is the float nearest to all of them |
| SlowPath.ScientificExponent | include/fast_float/fast_float.h:3023-3039 | the exponent plus the number of digits after the first |
| SlowPath.ScientificExponentIs | include/fast_float/fast_float.h:3401-3411 | it is the place of the literal's first significant digit, also when the mantissa is a prefix |
| SlowPath.CompareDigits | include/fast_float/fast_float.h:3399-3417 | the correctly rounded value of the whole literal, however many digits it has |
| FastError.ErrorFloor | include/fast_float/fast_float.h:2256-2276 | the extended value cut off is a float not above w * 10^q, although the product may come out larger than the exact one |
| FastError.ErrorBrackets | include/fast_float/fast_float.h:2256-2276 | for 19-digit words the next word is not past the midpoint over that float's successor |
| FastError.ComputeError | include/fast_float/fast_float.h:2256-2276 | gives such an extended value, for every nonzero word and every exponent of the table |
| FastPath.ClingerPath | include/fast_float/fast_float.h:3638-3676 | the fast path is taken exactly under the source's conditions, and then gives the nearest-even float, neither zero nor infinity for a nonzero mantissa |
| FastPath.ExactPowerOfTen | include/fast_float/fast_float.h:523-526 | the powers of ten up to 10^22 (10^10) are floats |
| FastPath.ProductIsFloat | include/fast_float/fast_float.h:528-555 | up to the table's bound mantissa * 10^power is itself a float, so the rounding mode does not matter |
| FastPath.MaxMantissaIs | include/fast_float/fast_float.h:528-555 | the bounds are the largest v with 5^power * v <= 2^24 for float, but only 2^52 for double |
| CappedExponent.CappedIsRight | include/fast_float/fast_float.h:1322-1330 | a float found for the capped exponent is the literal's nearest if and only if the exponent is below the cap, or both numbers leave the range at the same end |
| CappedExponent.ShortLiteralIsRight | include/fast_float/fast_float.h:1322-1330 | one of these holds for every literal of at most 2^27 digits |
| CappedExponent.OneIsLost | include/fast_float/fast_float.h:1322-1330 | a text that denotes 1, with 2684354559 zeros after the point and the exponent 2684354560, is rounded to 0 |
| FromChars.BracketRounds | include/fast_float/fast_float.h:3681-3685 | if a prefix and the next one round alike, so does everything that begins with the prefix |
| FromChars.ErrorFitsLiteral | include/fast_float/fast_float.h:3681-3688 | what the fast algorithm hands on meets the slow path's needs for every literal with that prefix |
| FromChars.Decide | include/fast_float/fast_float.h:3680-3688 | fast algorithm, comparison with the next mantissa and slow path together give the correctly rounded literal, with the exponent the parser accumulated |
| FromChars.FromChars | include/fast_float/fast_float.h:3608-3695 | the literal at the front of every text becomes the float nearest to the number written, if and only if its exponent is below the cap or does not matter, and always up to 2^27 digits; sign, end and range error are right; the same is said of the characters directly |
| BitPatterns.ReadExactText | include/fast_float/fast_float.h:3608-3695 | a text that spells out the number of a finite pattern is read as that pattern |
| BitPatterns.ReadOne | include/fast_float/fast_float.h:3608-3695 | the text "1" is read as 0x3FF0000000000000, or 0x3F800000 |
| StringHash.HashBlockz64 | include/das_hash_map/das_hash_map.h:76-102 | is the FNV hash of the string before its terminator, remapped if it is a sentinel; a null string gives the offset basis |
| StringHash.OnePairTellsApart | include/das_hash_map/das_hash_map.h:86-98 | two texts of equal length that differ in one pair of characters only have different hashes before the remap |
| StringHash.PublishedValues | include/das_hash_map/das_hash_map.h:76-102 | the hashes of the empty string, "a", "ab" and "abc" |
| ProbeTable.ProbeEnds | include/das_hash_map/das_hash_map.h:462-511 | in a well-formed table every probe sequence meets an EMPTY slot within capacity steps |
| ProbeTable.MakeRoom | include/das_hash_map/das_hash_map.h:484-486 | after growing or cleaning, one more entry keeps size <= capacity/2 and size + tombstones <= 3/4 capacity |
| ProbeTable.PutKeyWellFormed | include/das_hash_map/das_hash_map.h:484-511 | an insertion keeps counters, load and defaults right, and a new slot holds the default value |
| ProbeTable.TakesFirstFree | include/das_hash_map/das_hash_map.h:494-505 | a new key takes the first slot on its path that is not live, tombstone or EMPTY |
| ProbeTable.EraseWellFormed | include/das_hash_map/das_hash_map.h:513-522 | so does an erase |
| ProbeTable.ReserveFor | include/das_hash_map/das_hash_map.h:331-336 | the capacity is at least twice the request, never shrinks, and is no larger than need be; the size stays |
| ProbeTable.RehashInto | include/das_hash_map/das_hash_map.h:532-553 | the new table has the same size, no tombstones and the given capacity |
| MapRefinement.RepresentsOne | include/das_hash_map/das_hash_map.h:5-6 | the live slots stand for one finite map only |
| MapRefinement.FindCorrect | include/das_hash_map/das_hash_map.h:462-478 | find_index gives the key's slot exactly if a live slot holds the key |
| MapRefinement.PutKeyValid | include/das_hash_map/das_hash_map.h:484-511 | no key gets a second slot, also when a tombstone is reused, and every entry stays reachable |
| MapRefinement.PutRepresents | include/das_hash_map/das_hash_map.h:401-432 | an absent key adds one entry to the map; a present one yields its value |
| MapRefinement.EraseRepresents | include/das_hash_map/das_hash_map.h:433-446 | erasing a slot removes its key from the map and nothing else |
| MapRefinement.RehashCopies | include/das_hash_map/das_hash_map.h:532-553 | after i slots the new table holds exactly their live entries, once each, reachable from their hashes |
| MapRefinement.RehashRepresents | include/das_hash_map/das_hash_map.h:532-553 | rehashing, tombstones or not, keeps the map |
| HashRuns.StepRefines | include/das_hash_map/das_hash_map.h:331-446 | every operation does to the table what it means for a finite map, with the same answer: insert and try_emplace keep a present entry, m[key] enters V{} for an absent key, assignment replaces |
| HashRuns.RunRefines | include/das_hash_map/das_hash_map.h:331-553 | so does every run from an empty table; an absent key's m[key] is V{} |
| HashRuns.Step | include/das_hash_map/das_hash_map.h:331-553 | whatever the hash function, every operation leaves a well-formed table, so the load invariant holds in every reachable state |
| HashRuns.AmortizedStep | include/das_hash_map/das_hash_map.h:484-486 | the slots an operation rehashes plus the change of potential are at most four |
| HashRuns.RehashIsAmortized | include/das_hash_map/das_hash_map.h:484-553 | in a run of n operations without reserve, all rehashes together scan at most 4n slots |
| HashRuns.SpaceIsLinear | include/das_hash_map/das_hash_map.h:524-529 | in a run of n operations without reserve there are never more slots than the larger of 8 and 4n |
| HashMap.Perform | include/das_hash_map/das_hash_map.h:331-446 | an operation of the class is the step of the specification, and its loops scan as many slots as the cost says |
| HashMap.PerformAll | include/das_hash_map/das_hash_map.h:331-553 | a whole run of the class answers as the specification's, as the finite map's if no key hashes to a sentinel, and without reserve its rehash loops together make at most four turns per operation, and its slots are at most eight or four per operation |
| HashSentinels.KeyLost | include/das_hash_map/das_hash_map.h:465-541 | a key with raw hash 0 or 1 is inserted, the table grows, and the key is not found |
| HashSentinels.FoundIffNoSentinel | include/das_hash_map/das_hash_map.h:462-553 | that run finds the key if and only if its raw hash is above HASH_KILLED |
| HashSentinels.AgreesIffNoSentinel | include/das_hash_map/das_hash_map.h:331-553 | every run over a set of keys answers as the finite map does if and only if none of the keys has a raw hash of 0 or 1 |
| Hashers.MinusOneIsLost | include/das_hash_map/das_hash_map.h:122-127 | with the integer hasher the keys -1 and -2 are inserted, lost when the table grows, and not found |
| Hashers.IntegersAgree | include/das_hash_map/das_hash_map.h:122-127 | maps over integer keys agree with the finite map in every run if and only if -1, -2 and their unsigned forms are no keys |
| Hashers.IntegersScatter | include/das_hash_map/das_hash_map.h:122-127 | two integers have the same hash exactly if they are equal modulo 2^64 |
| Hashers.PointerSentinels | include/das_hash_map/das_hash_map.h:138-143 | the pointer hasher gives a sentinel exactly for addresses below 16 |
| Hashers.PointersAgree | include/das_hash_map/das_hash_map.h:138-143 | maps over pointers agree with the finite map in every run if and only if no key is below 16, null included |
| Hashers.PointersScatter | include/das_hash_map/das_hash_map.h:138-143 | two addresses have the same hash exactly if they differ in their low four bits at most |
| Hashers.HashString | include/das_hash_map/das_hash_map.h:145-157 | computes the hash of the string's characters, above both sentinels |
| Hashers.StringKeys | include/das_hash_map/das_hash_map.h:145-157 | the keys of the empty string, "a" and "ab" |
| Hashers.StringsAgree | include/das_hash_map/das_hash_map.h:145-157 | every run over string keys agrees with the finite map |
| HashIteration.IterationVisitsAll | include/das_hash_map/das_hash_map.h:262-268 | begin and ++ reach every entry of the map exactly once, size() times in all |
| HashIteration.SweepRefines | include/das_hash_map/das_hash_map.h:436-457 | erasing matching entries while iterating leaves the map without them; size and tombstones stay in step |
| HashIteration.EraseKeepsVisits | include/das_hash_map/das_hash_map.h:436-446 | an erase at the iterator does not change what is still to be visited |
| HashMap.DaslangHashMap.FindIndex | include/das_hash_map/das_hash_map.h:462-478 | the loop ends, in the slot of the specification or not found |
| HashMap.DaslangHashMap.ReserveSlot | include/das_hash_map/das_hash_map.h:483-511 | rehash if needed, then the key's slot, the first tombstone or the EMPTY slot; the whole new state |
| HashMap.DaslangHashMap.RehashInto | include/das_hash_map/das_hash_map.h:532-553 | every loop ends, and the new fields are the rehashed table |
| HashMap.DaslangHashMap.EraseIndex | include/das_hash_map/das_hash_map.h:513-522 | a found slot becomes a tombstone with default key and value; otherwise nothing changes |
| HashMap.DaslangHashMap.Insert | include/das_hash_map/das_hash_map.h:401-405 | the step Insert, which keeps the value of a present key, and a slot that holds the key |
| HashMap.DaslangHashMap.TryEmplace | include/das_hash_map/das_hash_map.h:419-424 | the step TryEmplace, and a slot that holds the key |
| HashMap.DaslangHashMap.Index | include/das_hash_map/das_hash_map.h:389-391 | the step Index, and the slot that operator[] refers to |
| HashMap.DaslangHashMap.Erase | include/das_hash_map/das_hash_map.h:433-435 | the step Erase |
| HashMap.DaslangHashMap.Lookup | include/das_hash_map/das_hash_map.h:367-387 | the step Lookup: find, contains and at |
| HashMap.DaslangHashMap.Reserve | include/das_hash_map/das_hash_map.h:331-336 | the step Reserve |
| HashMap.DaslangHashMap.Clear | include/das_hash_map/das_hash_map.h:338-344 | the step Clear |
| HashMap.DaslangHashMap.EraseIterator | include/das_hash_map/das_hash_map.h:436-446 | the slot becomes a tombstone, and the result is the next live slot |
| HashMap.VisitAll | include/das_hash_map/das_hash_map.h:262-268 | a loop over begin and ++ visits exactly the live slots |
| HashMap.EraseIf | include/das_hash_map/das_hash_map.h:436-446 | a loop that erases matching entries visits each original entry once and ends in the swept table |
| InsertOnly.SameStep | include/das_hash_map/das_hash_map.h:797-865 | each operation of the insert-only map gives the general map's answer and leaves the same slots, whatever the hash function |
| InsertOnly.SameRun | examples/hash/bench_hash_insert_only.cpp:3-8 | in every run without erase both maps hold the same hashes, keys, values and size, and answer alike |
| InsertOnly.InsertOnlyRefines | include/das_hash_map/das_hash_map.h:695-865 | every run of the insert-only map agrees with a finite map |
| InsertOnly.DaslangInsertOnlyHashMap.ReserveSlot | include/das_hash_map/das_hash_map.h:817-837 | grow if needed, then the key's slot or the EMPTY one; the whole new state |
| InsertOnly.DaslangInsertOnlyHashMap.RehashInto | include/das_hash_map/das_hash_map.h:846-865 | the rehashed table, skipping EMPTY slots only |
| InsertOnly.DaslangInsertOnlyHashMap.Insert | include/das_hash_map/das_hash_map.h:752-756 | the step Insert |
| InsertOnly.DaslangInsertOnlyHashMap.Index | include/das_hash_map/das_hash_map.h:744-746 | the step Index |
| InsertOnly.DaslangInsertOnlyHashMap.Reserve | include/das_hash_map/das_hash_map.h:695-700 | the step Reserve |
| StableOrder.StableSortedMeans | examples/sort/bench_stable_sort.cpp:195-219 | a stably sorted result is a permutation of the input, in order, with equal elements in their input order |
| StableOrder.StableSortedUnique | examples/sort/bench_stable_sort.cpp:195-219 | there is only one such result |
| StableMerge.InsertionRun | examples/sort/bench_stable_sort.cpp:94-106 | sorts a run in place, stably, and touches nothing else |
| StableMerge.MergeRuns | examples/sort/bench_stable_sort.cpp:110-120 | merges two adjacent sorted runs stably into the other buffer |
| StableMerge.MergePass | examples/sort/bench_stable_sort.cpp:137-145 | turns runs of n into runs of 2n, the ragged and the lone last run included |
| StableMerge.DasStableMerge | examples/sort/bench_stable_sort.cpp:127-149 | for any strict weak order and length the array ends stably sorted, whichever buffer the passes end in |
| StableIndex.SortedPositions | examples/sort/bench_stable_sort.cpp:167-175 | sorting the positions by the tie-broken comparator gives the one stable permutation, though the sort is not stable |
| StableIndex.MoveCycle | examples/sort/bench_stable_sort.cpp:184-191 | follows one cycle to its end, each element moved before it is overwritten; it terminates |
| StableIndex.ApplyPermutation | examples/sort/bench_stable_sort.cpp:177-192 | every slot k ends with the element that was in slot perm[k] |
| StableIndex.DasStableIndex | examples/sort/bench_stable_sort.cpp:161-193 | the array ends stably sorted |
| StableSorts.SortBoth | examples/sort/bench_stable_sort.cpp:127-193 | run on two arrays with the same contents, the two sorts leave the same contents, stably sorted |

## Left out

- FromChars.FromChars: infinity and NaN spellings, and a decimal point that is itself a digit. That the machine's operations round as IEEE 754 says is an assumption, IsIeee; the fast path's special case for zero under one compiler gives the same bits.
- FastPath.MaxMantissaIs: the source's comment promises 2^53 for double; the model follows the table, which starts from 2^52.
- PowerTable.PowerOfFive128: the source's comment says that the rows are rounded toward one; below 5^-27 the table's are cut off, and the model follows the table.
- NumberString.ParseNumberString: an empty text and a decimal point that is a digit; the source's callers exclude the first. With a point that is a sign or an exponent mark the scan is specified, but not as the longest parse. The fraction span is an empty sequence where the source has a null one.
- DigitComp.NegativeDigitComp: the precondition bounds the digits and exponent by what parse_mantissa and the exponent range can give, and asks that b, the value cut off, is finite and that the real value lies between b and the midpoint above b's successor (more than the interval up to the successor). FromChars.ErrorFitsLiteral shows that the caller provides this.
- Rounding.Round: asks for the top bit, which every caller sets before it rounds.
- BigInt.StackVec.LongMul: whether zero times a span of more than 62 limbs succeeds.
- SlowPath.CompareDigits: int32 exponents are integers; they stay in the range of literals whose exponent reaches the slow path.
- ParseMantissa.Parse: digit limits above 769 do not occur. Its two copies of the digit loop are one method, and the last test of the source, which can never be true, is not written.
- HashRuns.RunRefines: asks that raw hashes are above HASH_KILLED; HashSentinels.AgreesIffNoSentinel shows that this is needed.
- HashRuns.RehashIsAmortized: explicit reserve calls are excluded, as they can rehash at any time.
- StableIndex.DasStableIndex: das_qsort_r is a parameter that sorts; its header is not part of this model. At most 2^32 - 1 elements, as the source's 32-bit indices demand.
- IntString.ParseIntString: the checks of base and empty text belong to its caller.
- Both stable sorts move whole elements where the source copies bytes of a given width, and the tail copies of a merge are loops.
- The hash set classes mirror the maps and are not written again; neither are const iterators, copies and moves, emplace and the initializer-list constructor, which are runs of operations that are modelled.
- Storage references that survive a rehash, bool values stored as bytes, allocation failure, and overflow of `n * 2` in reserve.
- Hashers: hashes of other types, which are those of the standard library or of the host program, and the two-byte overread of hash_blockz64.
- SIMD variants, wide characters, the 32-bit limb configuration and byte order.
- White space skipping and the leading plus sign, which are disabled by default.
