# bcmath multiplication (recmul.c) in Dafny

A model of `bc_multiply`, PHP's bcmath arbitrary-precision multiplication,
together with its helpers in `ext/bcmath/libbcmath/src/recmul.c`. It uses the
64-bit configuration, where `BC_MUL_UINT_DIGITS` is 8 and `BC_MUL_UINT_OVERFLOW`
is 10^8:

- **Codecs.** `bc_parse_chunk_chars`, `bc_partial_convert_to_uint` and
  `bc_convert_to_uint` turn runs of decimal digits into native words.
  `bc_write_bcd_representation`, the `LUT` table and `bc_expand_lut` turn a value
  below 10000 back into four digit bytes.
- **Fast path.** `bc_fast_mul` handles operands of at most eight digits each with
  one native multiply.
- **Standard path.** `bc_standard_mul` is a chunked schoolbook convolution in base
  10^8. Its carry passes (`bc_digits_adjustment`) are deferred until the budget
  `BC_MUL_MAX_ADD_COUNT` is used up.
- **Orchestrator.** `bc_multiply` chooses the path and sets the product's scale,
  integer-digit count and sign. It then trims leading zeros and makes a zero
  product positive.

The native word `BC_UINT_T` is the newtype `Words.u64`. Every addition and
multiplication on it must stay in range. So the fact that the model verifies is
itself the proof that the code never wraps around. That covers:

- the single multiply of the fast path;
- every `prod_uint[i + j] += ...` of the convolution;
- the carries of every adjustment pass.

Digit buffers and chunk arrays are sequences. A write that walks backwards from
a pointer to the last digit becomes a prepend. A pointer to the last digit of a
run becomes an exclusive end index into the digit sequence.

Files:

- `words.dfy`: the word type, the chunk constants and the overflow budget.
- `digits.dfy`: the value of a digit run and the fixed-width decimal expansion.
- `chunks.dfy`: the weighted sum of a chunk array.
- `codec.dfy`: the digit and chunk codecs.
- `carry.dfy`: `bc_digits_adjustment`.
- `paths.dfy`: `bc_fast_mul` and `bc_standard_mul`.
- `multiply.dfy`: `bc_multiply` and the `bc_num` record.
- `scenarios.dfy`: worked examples.

A few general descriptions of this routine differ from the code. In each case
the model follows the code:

- **The overflow budget counts rows, not multiply-adds.** Each row adds at most
  one product to any one slot, so the two counts are the same bound per slot.
- **An intermediate carry pass leaves the top slot unreduced.** The model shows
  this is harmless: the partial product is below B^(slots), so the top slot is
  below B anyway (`Paths.PartialProductBound`, `Carry.AdjustedIsNormalized`).
- **The result is truncated, not rounded.** Digits past the product scale stay in
  the buffer but are no longer part of the number.

## Model

| member | source | states |
|---|---|---|
| Words.BudgetFacts | ext/bcmath/libbcmath/src/recmul.c:40-48 | BC_MUL_MAX_ADD_COUNT is 1844 on a 64-bit word. A slot holding a value below the base plus 1844 chunk products, plus the largest incoming carry, still fits in 64 bits. So neither the additions nor a later carry pass can wrap. |
| Carry.DigitsAdjustment | ext/bcmath/libbcmath/src/recmul.c:53-59 | The carry pass keeps Σ p[k]·B^k. It leaves every slot but the last below B. The last slot only gains the final carry, which is bounded, so it is never reduced. No slot wraps around on an accumulator within the budget. |
| Carry.AdjustedIsNormalized | ext/bcmath/libbcmath/src/recmul.c:273-277 | After a carry pass, if the accumulator's total is below B^(slots), the unpropagated last slot is a proper chunk digit too. |
| Codec.ParseChunkChars | ext/bcmath/libbcmath/src/recmul.c:88-110 | Combining eight digits pairwise in three rounds (×10, ×100, ×10000) gives their positional value, which is below 10^8. |
| Codec.PartialConvertToUint | ext/bcmath/libbcmath/src/recmul.c:113-133 | Returns the value of the `len` digits ending at the given position, below 10^len. A full chunk goes through bc_parse_chunk_chars. A shorter run goes through the weighted loop, which cannot overflow. |
| Codec.ConvertToUint | ext/bcmath/libbcmath/src/recmul.c:135-145 | Cuts a digit run into ceil(nlen/8) chunks, least significant first, each below 10^8. Σ chunk[k]·10^(8k) equals the value of the run. |
| Codec.Lut | ext/bcmath/libbcmath/src/recmul.c:171-193 | The little-endian LUT entry for 0..99 holds the tens digit in the low nibble and the ones digit in the high nibble. |
| Codec.ExpandLut | ext/bcmath/libbcmath/src/recmul.c:195-198 | Spreads a byte's two nibbles into the low nibbles of two bytes: low nibble to the low byte, high nibble to the high byte. |
| Codec.WriteBcdRepresentation | ext/bcmath/libbcmath/src/recmul.c:200-215 | For a value below 10000, the four bytes written are its decimal digits, most significant first. They equal the 4-digit expansion, and their value is the input. |
| Codec.WriteChunkValue | ext/bcmath/libbcmath/src/recmul.c:288-291 | Writing a slot below 10^8 as its high and low BCD groups yields eight digits worth the slot. |
| Codec.ChunkRoundTrip | ext/bcmath/libbcmath/src/recmul.c:88-110 | Decoding eight digits, then writing the word back as two BCD groups, reproduces the digits. |
| Codec.ChunkEncodeDecode | ext/bcmath/libbcmath/src/recmul.c:200-215 | Writing a chunk value as two BCD groups, then decoding the eight digits, gives the value back. |
| Digits.ToDigitsOfValue | ext/bcmath/libbcmath/src/recmul.c:117-133 | A digit run of any length is reproduced by expanding its value at that width. This is the round trip of the per-digit decoder. |
| Digits.ToDigitsValue | ext/bcmath/libbcmath/src/recmul.c:165-168 | The `% 10`, `/ 10` expansion of a value below 10^k into k digits has that value. |
| Chunks.ChunkValueInjective | ext/bcmath/libbcmath/src/recmul.c:217-220 | Normalized chunk arrays of one length are equal exactly when their weighted sums are, so the chunking of a number is unique. |
| Paths.FastMul | ext/bcmath/libbcmath/src/recmul.c:151-169 | For operands of at most 8 digits, the native product cannot wrap. The `n1len + n2len` digits written are the exact product with leading zeros. |
| Paths.AddRow | ext/bcmath/libbcmath/src/recmul.c:268-270 | One row adds n1_uint[i]·n2_uint[j] into slot i + j and changes nothing else. The weighted sum grows by a·B^i·Σ b[j]·B^j, and no slot wraps. |
| Paths.Convolve | ext/bcmath/libbcmath/src/recmul.c:247-271 | Zeroes the accumulator and adds every row, running a carry pass whenever BC_MUL_MAX_ADD_COUNT rows were added since the last one. The weighted sum is the product of the chunk sums, and every slot stays within the budget. |
| Paths.PartialProductBound | ext/bcmath/libbcmath/src/recmul.c:263-266 | Before any row, the partial product is below B^(n1_arr_size + n2_arr_size - 1). |
| Paths.ExpandProduct | ext/bcmath/libbcmath/src/recmul.c:279-303 | Every slot but the last is written as 8 digits. The last slot fills the remaining leading positions by `% 10` and `/ 10`. The digit string has exactly the accumulator's value. |
| Paths.StandardMul | ext/bcmath/libbcmath/src/recmul.c:225-306 | The `n1len + n2len` digits produced are the exact product of the two digit runs, with leading zeros. |
| Paths.PathsAgree | ext/bcmath/libbcmath/src/recmul.c:322-327 | Where both paths apply, they produce the same digit string. |
| Paths.ProductFits | ext/bcmath/libbcmath/src/recmul.c:230 | The product of an l1-digit run and an l2-digit run fits in prodlen = l1 + l2 digits. |
| BcMultiply.ProdScale | ext/bcmath/libbcmath/src/recmul.c:317-320 | The product scale is at least each operand scale and at most the exact scale s1 + s2. It reaches the request unless capped at s1 + s2, and exceeds the request only when raised to the larger operand scale. |
| BcMultiply.ProdScaleUnique | ext/bcmath/libbcmath/src/recmul.c:308-310 | Any scale with those three properties is MIN(full, MAX(scale, s1, s2)). |
| BcMultiply.Assemble | ext/bcmath/libbcmath/src/recmul.c:329-332 | The raw product is positive exactly when the operand signs are equal. Its `n_len` is n1.len + n2.len once `full_scale` is subtracted. Its scale is the product scale, and its magnitude is the exact product truncated to that scale. |
| BcMultiply.RmLeadingZeros | ext/bcmath/libbcmath/src/recmul.c:333 | Trimming keeps the sign, scale and value, never grows `n_len`, and leaves no superfluous leading zero. |
| BcMultiply.IsZero | ext/bcmath/libbcmath/src/recmul.c:334 | The zero test holds exactly when the number's value is zero. |
| BcMultiply.Finish | ext/bcmath/libbcmath/src/recmul.c:333-336 | After trimming, the sign is PLUS exactly when the raw sign was PLUS or the value is zero. Value and scale are kept. |
| BcMultiply.Multiply | ext/bcmath/libbcmath/src/recmul.c:312-338 | The result has scale MIN(full, MAX(scale, s1, s2)) and at most n1.len + n2.len integer digits. Its value is \|n1·n2\| truncated, not rounded, to that scale. Its sign is PLUS iff the signs agree or the value is zero, and it has no superfluous leading zero. |
| BcMultiply.ProductUnique | ext/bcmath/libbcmath/src/recmul.c:312-338 | Two results meeting bc_multiply's promise for the same operands are the same number: sign, lengths and digits. |
| BcMultiply.TrimmedUnique | ext/bcmath/libbcmath/src/recmul.c:333 | A trimmed number is fixed by its scale and value: its `n_len` and digits follow. |
| BcMultiply.MultiplyCommutes | ext/bcmath/libbcmath/src/recmul.c:308-310 | N2 times N1 gives the same number as N1 times N2. |
| Scenarios.ConvertToUintExample | ext/bcmath/libbcmath/src/recmul.c:217-220 | 12345678901234567890 converts to {34567890, 56789012, 1234}. |
| Scenarios.WriteBcdExample | ext/bcmath/libbcmath/src/recmul.c:200-201 | Writing the value 1234 produces the digits "1234". |
| Scenarios.IntegerExample | ext/bcmath/libbcmath/src/recmul.c:312-338 | 123 × 456 at scale 0 is 56088. |
| Scenarios.FractionExample | ext/bcmath/libbcmath/src/recmul.c:317-320 | 1.5 × 2.5 at scale 2 is 3.75. |
| Scenarios.TruncationExample | ext/bcmath/libbcmath/src/recmul.c:329-332 | 1.5 × 2.5 at scale 1 is 3.7, truncated rather than rounded. |
| Scenarios.NegativeExample | ext/bcmath/libbcmath/src/recmul.c:330 | -7 × 8 at scale 0 is -56. |
| Scenarios.ZeroExample | ext/bcmath/libbcmath/src/recmul.c:333-336 | -0 × 999999999999999999 at scale 5 is a positive 0 at scale 0. |
| Scenarios.CappedScaleExample | ext/bcmath/libbcmath/src/recmul.c:308-310 | 1.111 × 1.111 at scale 10 is 1.234321, with the scale capped at 6. |

## Left out

- The 32-bit configuration (recmul.c:44-45, 68-86, 285-287) is not modelled. The model fixes `BC_UINT_T` at 64 bits, with 8 digits per chunk.
- The big-endian branches (recmul.c:73-75, 92-94, 173-174, 210-213) are not modelled. Only the little-endian layout is, and it is treated arithmetically.
- The byte-level SWAR details of `bc_parse_chunk_chars` are not modelled: the `memcpy` wide load, the lane masks and `BC_BSWAP`. The model keeps its pairwise ×10, ×100, ×10000 combination on digit values.
- `bc_expand_lut` and the 32-bit store are modelled with division and remainder by powers of two, not with bit masks and shifts. The fields are disjoint, so the two agree.
- Allocation (`bc_new_num_nonzeroed`, `safe_emalloc`, `efree`) is not modelled. Buffers are sequences built by the operations, and allocation failure is not modelled.
- `_bc_rm_leading_zeros` and `bc_is_zero` are defined in files that are not part of this model. `BcMultiply.RmLeadingZeros` and `BcMultiply.IsZero` are stand-ins that state what bc_multiply relies on them for.
- `UNEXPECTED` is a branch-prediction hint with no effect on the result.
- Reference counting and the other bookkeeping fields of `bc_num` are not modelled. A number is its sign, `n_len`, `n_scale` and `n_value`.
- `size_t` arithmetic is unbounded in the model. Lengths are assumed never to approach `SIZE_MAX`.
- Carry.DigitsAdjustment: requires every slot to be within the budget bound (`WithinBudget`). The C routine accepts any contents, but beyond that bound a slot could wrap, and the model does not describe wrapped results. Every caller in recmul.c meets the bound, as `Paths.Convolve` proves.
- Paths.AddRow: requires room for one more chunk product in every slot, for the same reason. `Paths.Convolve` establishes it through the `count` budget.
- Paths.StandardMul: requires both digit counts to be at least 1, which bc_multiply guarantees because `n_len >= 1`. With an empty operand, the `size_t` expressions `prod_arr_size - 1` at lines 234 and 284 could wrap.
- BcMultiply.Multiply: the result does not say what the buffer holds past `n_len + n_scale`. Those are the exact product's digits beyond the product scale, which no consumer reads.
- The 40-digit by 40-digit scenario is not included as a separate example. It is an instance of `BcMultiply.Multiply`'s contract on the standard path.
