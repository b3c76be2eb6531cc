# front-toolset document and string helpers, in Dafny

This project models the pure helpers of `src/front-toolset.js`, a small
toolbox of front-end utilities for Brazilian applications:

- `isValidCpf`, `isValidCnpj` and `isValidCpfOrCnpj` validate the two Brazilian
  taxpayer numbers. A CPF identifies a person and has 11 digits. A CNPJ
  identifies a company and has 14 digits. Both end in two modulo-11 check
  digits.
- `formatCPForCNPJ` removes `.`, `-` and `/`, then picks a display mask by
  the number of characters left.
- `removeAccents` maps Portuguese accented letters to plain ones.
- `justNumbers` keeps only the decimal digits.
- `generateUUID` fills a version-4 UUID template with random hexadecimal
  digits.

The validators are modelled on the JavaScript exactly as written, coercions
included:

- `charAt` past the end gives `""`, which counts as 0.
- `.`, `-` and `/` coerce to NaN, and `!=` against NaN is true.
- `substr` clips at the end of the string.
- `isValidCpf` removes only `.` and `-`, so a `/` survives into the
  arithmetic.

Each validator also has an independent statement of the Receita Federal
rule: fixed weight tables, a modulo-11 check digit, and 14 padded digit
positions for a CNPJ. An all-inputs lemma shows that the loops decide
exactly that rule.

Modules:

| module | file | models |
|---|---|---|
| `Text` | text.dfy | separator removal, `justNumbers`, `substr`, digit coercion |
| `JsNumber` | js_number.dfy | the Number/NaN arithmetic the CPF loops rely on |
| `Mod11` | mod11.dfy | the weighted sum and the modulo-11 check digit |
| `Cpf` | cpf.dfy | `isValidCpf` |
| `Cnpj` | cnpj.dfy | `isValidCnpj` |
| `Document` | document.dfy | `isValidCpfOrCnpj` |
| `Format` | format.dfy | `formatCPForCNPJ` |
| `Accents` | accents.dfy | `removeAccents` |
| `Uuid` | uuid.dfy | `generateUUID` |

### Two behaviours of the validators worth knowing

- The router `isValidCpfOrCnpj` sends every input with more than eleven
  digits to the CNPJ validator, and `isValidCnpj` has no length check. Its
  missing characters read as 0, so twelve or thirteen digits can pass.
  `000000000037` is accepted (`Document.TwelveDigitsAccepted`).
- `isValidCpf` does not remove `/`. A valid CPF written with a `/` is
  therefore rejected by `isValidCpf` and accepted by `isValidCpfOrCnpj`
  (`Document.SlashedCpfSplitsVerdicts`).

## Model

| member | source | states |
|---|---|---|
| Text.JustNumbers | src/front-toolset.js:300-302 | the result has only digits, is no longer than the input, and holds a digit exactly when the input does |
| Text.JustNumbersIdempotent | src/front-toolset.js:300-302 | keeping only the digits a second time changes nothing |
| Text.JustNumbersOfDigits | src/front-toolset.js:300-302 | a string of digits comes back unchanged |
| Text.JustNumbersConcat | src/front-toolset.js:300-302 | keeping the digits commutes with concatenation, so the digits keep their order |
| Text.JustNumbersMultiset | src/front-toolset.js:300-302 | each digit occurs in the result as often as in the input, and no other character occurs |
| Text.JustNumbersIsStrip | src/front-toolset.js:300-302 | on document text, keeping the digits is the same as removing `.`, `-` and `/` |
| Text.StripMembers | src/front-toolset.js:361 | separator removal keeps exactly the input's characters that are not separators |
| Text.StripMultiset | src/front-toolset.js:361 | every kept character occurs as often as in the input, and dropped ones not at all |
| Text.StripConcat | src/front-toolset.js:361 | separator removal distributes over concatenation, so kept characters keep their order |
| Text.StripTwice | src/front-toolset.js:308 | removing `.` and `-` and then `/` is removing all three at once |
| Text.StripNothingToDrop | src/front-toolset.js:361 | an input with no separators is unchanged |
| Text.StripDocumentIsDigits | src/front-toolset.js:400 | document text without its separators is a digit string |
| Text.Substr | src/front-toolset.js:363-364 | `substr` gives the characters from `start`, clipped at the end of the string, and is empty past the end |
| Text.NumAt | src/front-toolset.js:368 | a digit reads as its value, and a position past the end reads as 0 |
| JsNumber.CharAtNumber | src/front-toolset.js:325 | a character coerces to NaN exactly when it is present and not a digit; otherwise its value is a digit below 10 |
| Mod11.CheckDigit | src/front-toolset.js:328-332 | the check digit is below 10, is 0 exactly when the sum is 0 or 1 modulo 11, and otherwise brings the sum to a multiple of 11 |
| Mod11.WeightedSumUpdate | src/front-toolset.js:324-326 | replacing one digit moves the weighted sum by the difference times that digit's weight |
| Mod11.SmallProductNotMultiple | src/front-toolset.js:324-326 | a nonzero digit difference times a weight in 2..10 is never a multiple of 11 |
| Mod11.CheckDigitDetectsShift | src/front-toolset.js:328-336 | a nonzero check digit changes whenever the sum moves by something other than a multiple of 11 |
| Mod11.WeightedSumZero | src/front-toolset.js:371 | with positive weights, the weighted sum of digits is 0 exactly when every digit is 0 |
| Cpf.LoopSumOfDigits | src/front-toolset.js:324-326 | over digits, the `soma` loop computes the weighted sum with weights counting down from `top - 1` |
| Cpf.LoopSumStep | src/front-toolset.js:324-326 | one more round over a digit adds that digit times its weight `top - i` |
| Cpf.LoopSumReadsPrefix | src/front-toolset.js:324-326 | after `n` rounds the loop depends only on the first `n` characters |
| Cpf.LoopSumNaN | src/front-toolset.js:324-326 | one non-digit among the characters read makes `soma` NaN |
| Cpf.RestoIsCheckDigit | src/front-toolset.js:328-332 | the `resto` computation is the modulo-11 check digit |
| Cpf.WeightsAreCountdowns | src/front-toolset.js:324-326 | the loops' weights are 10..2 and 11..2 |
| Cpf.RepeatedIsRepdigit | src/front-toolset.js:313-320 | among 11-digit strings, the ten listed literals are exactly the ones made of one repeated digit |
| Cpf.IsValidCpfIff | src/front-toolset.js:307-355 | `isValidCpf` is true exactly when the input without `.` and `-` is eleven digits, not all the same, whose last two are the check digits of the first nine and first ten |
| Cpf.SlashIsNotRemoved | src/front-toolset.js:308 | any `/` in the input makes `isValidCpf` false |
| Cpf.BodyDeterminesCheckDigits | src/front-toolset.js:324-352 | two digit sequences that satisfy the rule and share their first nine digits are equal |
| Cpf.ChangedCheckDigitFails | src/front-toolset.js:307-355 | two accepted inputs with the same first nine digits are the same number, so a changed check digit is rejected |
| Cpf.ChangedBodyDigitBreaksRule | src/front-toolset.js:324-336 | when the first check digit is not 0, changing any one of digits 1..9 breaks the first check-digit equation |
| Cpf.ChangedBodyDigitBreaksCpfRule | src/front-toolset.js:324-336 | the same for digit strings: a CPF whose tenth digit is not 0 no longer satisfies the rule after any single change among its first nine digits |
| Cpf.ChangedBodyDigitFails | src/front-toolset.js:307-355 | `isValidCpf` rejects a valid CPF, tenth digit not 0, once any one of its first nine digits is changed |
| Cpf.DecideFromLoops | src/front-toolset.js:334-352 | once both loop sums are known, the verdict is the two check-digit comparisons |
| Cpf.ReferenceCpfIsValid | src/front-toolset.js:307-355 | `52998224725` is accepted |
| Cpf.ReferenceWithWrongBodyDigitFails | src/front-toolset.js:307-355 | changing any one of the first nine digits of `52998224725` makes it fail |
| Cpf.ReferenceWithWrongLastDigitFails | src/front-toolset.js:344-352 | `52998224726`, the same number with its last digit changed, is rejected |
| Cpf.FirstDigitChangeCanPass | src/front-toolset.js:324-342 | `10000000108` and `20000000108` differ only in their first digit and are both accepted |
| Cnpj.PassesAreReferenceSums | src/front-toolset.js:367-384 | the two weight loops compute the weighted sums with weights 5,4,3,2,9,8,7,6,5,4,3,2 and 6,5,4,3,2,9,8,7,6,5,4,3,2 |
| Cnpj.PassSumIsSuffixSum | src/front-toolset.js:367-369 | after `n` rounds the loop has summed the last `n` body positions with their weights |
| Cnpj.FirstWeightsFromLoop | src/front-toolset.js:367-369 | the weights `2 + i % 8`, read from the right, are 5,4,3,2,9,8,7,6,5,4,3,2 |
| Cnpj.SecondWeightsFromLoop | src/front-toolset.js:380-384 | the weights `2 + (i + 1) % 8`, read from the right and followed by 2 for the first check digit, are 6,5,4,3,2,9,8,7,6,5,4,3,2 |
| Cnpj.Padded | src/front-toolset.js:363-368 | the 14 positions the validator reads: the digits of the input, and 0 past its end |
| Cnpj.SplitIsPadded | src/front-toolset.js:363-364 | the `substr` body and check-digit strings, read by `charAt`, are the padded positions |
| Cnpj.IsValidCnpjIff | src/front-toolset.js:360-394 | `isValidCnpj` is true exactly when the padded digits have a nonzero first sum and both check digits match the rule |
| Cnpj.SamePaddedSameVerdict | src/front-toolset.js:360-394 | the verdict depends only on the 14 padded positions |
| Cnpj.IgnoresTail | src/front-toolset.js:363-364 | digits after the fourteenth are ignored |
| Cnpj.MissingDigitsAreZero | src/front-toolset.js:363-368 | a digit string shorter than 14 is judged as if padded with zeros |
| Cnpj.ZeroBodyIsInvalid | src/front-toolset.js:371 | a body of twelve zeros is rejected, whatever its check digits |
| Cnpj.BodyDeterminesCheckDigits | src/front-toolset.js:373-391 | two accepted inputs with the same body have the same check digits |
| Cnpj.DecideFromPasses | src/front-toolset.js:371-391 | once both pass sums are known, the verdict is the zero guard and the two check-digit comparisons |
| Cnpj.ReferenceCnpjIsValid | src/front-toolset.js:360-394 | `11444777000161` is accepted |
| Cnpj.TwelveDigitsCanPass | src/front-toolset.js:363-391 | the twelve digits `000000000037` are accepted, because both missing check digits read as 0 |
| Document.IsValidCpfOrCnpjIff | src/front-toolset.js:399-412 | the router accepts exactly the inputs whose digits satisfy the CNPJ rule (more than eleven digits) or the CPF rule |
| Document.RoutedByLength | src/front-toolset.js:402-409 | fewer than eleven digits never pass; eleven are judged by the CPF rule alone; more than eleven by the CNPJ rule alone |
| Document.StrippedIsFixed | src/front-toolset.js:400 | after the router's removal, the CPF validator's own removal changes nothing |
| Document.TwelveDigitsAccepted | src/front-toolset.js:399-412 | `000000000037`, of length 12, is accepted |
| Document.SlashedCpfSplitsVerdicts | src/front-toolset.js:399-412 | a valid CPF written with a `/` before its check digits is accepted by the router and rejected by `isValidCpf` |
| Document.ReferenceSlashedCpf | src/front-toolset.js:399-412 | `529982247/25` is accepted by the router and rejected by `isValidCpf` |
| Format.MaskFor | src/front-toolset.js:160-180 | lengths 6, 8, 11 and 14 get a mask with that many digit slots, made of `0` and separators; every other length gets the empty mask |
| Format.CnpjMaskIsSourceLiteral | src/front-toolset.js:162 | the 14-digit mask is `00.000.000/0000-00` |
| Format.FormatArguments | src/front-toolset.js:153-183 | for any masking function: the result is absent exactly for the empty input; otherwise the function receives the input with no `.`, `-` or `/` left and every other character kept as often as it occurs, and a mask with that many slots for lengths 6, 8, 11 and 14, the empty mask otherwise |
| Format.FillMaskShape | src/front-toolset.js:182 | with as many digits as slots, the reference masking keeps each separator of the mask in place and puts the digits, in order, into the slots |
| Format.StripFillMask | src/front-toolset.js:182 | removing the separators from a filled mask gives the digits back |
| Format.FormatRoundTrip | src/front-toolset.js:153-183 | for 6, 8, 11 or 14 digits, formatting gives document text of the mask's length whose digits are the input's |
| Format.FormatIdempotent | src/front-toolset.js:153-183 | formatting an already formatted document changes nothing |
| Format.FormatIgnoresSeparators | src/front-toolset.js:156 | two non-empty inputs with the same digits are formatted alike |
| Format.OtherLengthsFormatEmpty | src/front-toolset.js:176-182 | a length with no mask formats to the empty string |
| Accents.LowerAccentedIsSourceLiteral | src/front-toolset.js:284 | the first half of the accented table is the lower-case letters of the literal |
| Accents.UpperAccentedIsSourceLiteral | src/front-toolset.js:284 | the second half is the upper-case letters of the literal |
| Accents.PlainIsSourceLiteral | src/front-toolset.js:285 | the plain table is the literal `aaaaaeeeeiiiiooooouuuucAAAAAEEEEIIIIOOOOOUUUUC` |
| Accents.IndexOf | src/front-toolset.js:288-289 | `indexOf` of one character gives its first position, or -1 exactly when it is absent; `search` agrees with it on table characters |
| Accents.TableLengths | src/front-toolset.js:284-285 | both tables have 46 characters |
| Accents.AccentedDistinct | src/front-toolset.js:284 | the accented table has no repeated character |
| Accents.Translate | src/front-toolset.js:288-292 | a character absent from the first table is copied, and one present becomes a character of the second table |
| Accents.TranslateFollowsTable | src/front-toolset.js:288-289 | with a repetition-free first table, the character at each of its positions becomes the one at the same position of the second table |
| Accents.TranslateLeavesNone | src/front-toolset.js:288-292 | when no character of the second table occurs in the first, no character of the first survives |
| Accents.TransliterateIdempotent | src/front-toolset.js:287-293 | with such separated tables, translating twice is translating once |
| Accents.TablesSeparated | src/front-toolset.js:284-285 | no plain letter occurs in the accented table |
| Accents.RemoveAccents | src/front-toolset.js:283-295 | the result has the input's length, and each position holds that input character with its accent removed |
| Accents.RemoveAccentsLoop | src/front-toolset.js:286-294 | the loop that appends one `substr` piece per character computes `RemoveAccents` of its input |
| Accents.UnaccentFollowsTable | src/front-toolset.js:284-289 | the accented letter at each table position becomes the plain letter at the same position |
| Accents.UnaccentKeepsOthers | src/front-toolset.js:290-292 | a character outside the table is copied unchanged |
| Accents.RemoveAccentsLeavesNoAccent | src/front-toolset.js:283-295 | no character of the accented table survives |
| Accents.RemoveAccentsIdempotent | src/front-toolset.js:283-295 | removing accents twice is removing them once |
| Accents.RemoveAccentsKeepsPlainText | src/front-toolset.js:283-295 | text without accented characters comes back unchanged |
| Accents.RemoveAccentsConcat | src/front-toolset.js:287-293 | removing accents works character by character, so it commutes with concatenation |
| Uuid.TemplateIsSourceLiteral | src/front-toolset.js:95 | the template is `xxxxxxxx-xxxx-4xxx-yxxx-xxxxxxxxxxxx` |
| Uuid.HexRoundTrip | src/front-toolset.js:98 | `toString(16)` of a value below 16 and reading the hexadecimal digit back are inverse |
| Uuid.VariantNibble | src/front-toolset.js:97 | `(r & 0x3) \| 0x8` lies in 8..11 and keeps the two low bits of `r` |
| Uuid.Fill | src/front-toolset.js:95-99 | the replacement keeps the template's length and every character that is not a placeholder |
| Uuid.GenerateUuidAt | src/front-toolset.js:94-100 | each of the 36 characters is the given draw in hexadecimal, a dash, `4`, or the variant digit of draw 15 |
| Uuid.GenerateUuidIsV4 | src/front-toolset.js:94-100 | every result is a UUID in the 36-character text form of section 3 of RFC 4122, carrying the version-4 and variant-1 bits of section 4.4 |
| Uuid.ExtractGenerate | src/front-toolset.js:94-100 | reading the draws back from a result gives every draw, except the variant draw, of which only its remainder modulo 4 survives |
| Uuid.GenerateExtract | src/front-toolset.js:94-100 | every version-4 UUID is the result of some draws: the ones read back from it |

## Left out

- The browser-side exports of `src/front-toolset.js` are not part of this model. They work through the DOM, `window`, storage, cookies, the network, the clock, `Intl` or floating point:
  - `goToUrl`, `goToLastPage`, `isApp`, `isMobile`, `isDesktop`, `getURLParams`, `printHTML`, `loadScript`;
  - the local and session storage getters and setters;
  - `setCookie`, `getCookie`, `deleteCookie`;
  - `saveEventOnAnalytics`, `notify`, `searchCEP`;
  - `formatValueToCurrency`, `formatDateToBRL`, `formatFloat`, `uid`, `objectToURLParams`.
- `src/vue-js.js` is not part of this model: it only loads `.vue` files dynamically.
- `Math.random` is not modelled. `generateUUID` takes its 31 draws as the parameter `nibbles`, each an integer in 0..15, which is what `Math.random() * 16 | 0` yields.
- `StringMask.apply` is a library outside this file. `Format.FormatCpfOrCnpj` takes it as the parameter `apply`. `Format.FillMask` is only a reference reading of the mask convention, and the round-trip lemmas are stated for that reading.
- Cpf.IsValidCpf, Cnpj.IsValidCnpj and Document.IsValidCpfOrCnpj require document text: digits, `.`, `-` and `/` only. JavaScript coerces other characters in other ways (whitespace to 0, letters to NaN), and those are not modelled.
- `null`, `undefined` and non-string arguments are not modelled. The validators would throw on them, and `formatCPForCNPJ` returns `undefined` for any falsy argument. Only the empty string is modelled, as `None`.
- `Accents.IndexOf` stands for both `indexOf` and `search` in `removeAccents`. `search` reads its argument as a regular expression; it agrees with `indexOf` there only because `search` is reached only for a table character, and every table character is a letter with no special meaning in a regular expression.
- `Format.FormatCpfOrCnpj` counts the length of the stripped input in code points, while `CPForCNPJ.length` counts UTF-16 code units. The two agree only for characters in the Basic Multilingual Plane: `"12345😀"` has length 7 in JavaScript and gets the empty mask, but 6 in the model and gets `0000-00`.
- `\D` in `justNumbers` is read as "not `0`-`9`", which is what it means in JavaScript regular expressions without the `u` flag.
- Unicode normalisation is not modelled: strings are sequences of code points, so an accent written as a separate combining mark is not removed, just as in the JavaScript. The JavaScript loop visits UTF-16 code units and copies both halves of a character outside the Basic Multilingual Plane, so its result is the same as the model's.
- JavaScript's 64-bit floating point arithmetic is modelled with unbounded integers. No sum in the validators exceeds a few hundred, so the two agree.
