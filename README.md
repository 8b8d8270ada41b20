# Listing validation and browse filtering

This project models the listing-domain logic of a marketplace front end and
proves properties of that model. The logic lives in two functions.

- `validateListingInput` checks the six user-entered fields of a new listing.
  These are title, description, price, category, unit and location. It
  collects one error message per failing field in a record and reports the
  input valid exactly when that record stays empty.
- `filterAndSortListings` copies the listing array. When the search query is
  not blank, it keeps the listings whose lower-cased title or description
  contains the lower-cased query; a blank query keeps every listing. When a
  category is selected (a non-empty string), it then keeps the listings of
  exactly that category. Finally it sorts the copy in place by "newest",
  "price-low" or "price-high". Any other sort key leaves the filtered order
  alone.

Files:

- `backend.dfy` (module `Backend`): the `ListingInput` and `Listing` records
  of `src/frontend/src/backend.d.ts`.
- `text.dfy` (module `Text`): `trim`, `toLowerCase` and `includes` on
  strings, each with an independent characterisation.
- `seqs.dfy` (module `Seqs`): `Array.prototype.filter` on sequences, and the
  order-preserving subsequence relation.
- `listing_validation.dfy` (module `ListingValidation`): the validator.
  - `Errors` specifies it field by field.
  - `ValidateListingInput` is a method that builds the record block after
    block, as the original does, and is proved equal to `Errors`.
- `listings_filtering.dfy`:
  - Module `ListingsFiltering`: the filters as functions, the comparators,
    and a reference stable sort `StableSort`. `SortInPlace` is an in-place
    array sort proved equal to `StableSort`. `FilterAndSortListings` is the
    whole operation on arrays.
  - Module `ListingsFilteringProperties`: the properties of the whole
    operation, with worked examples.

`Array.prototype.sort` is stable from the 2019 edition of ECMA-262 onward.
`ListingsFiltering.StableSortCharacterized` proves that exactly one ordering
of the filtered listings is both sorted by the comparator and stable. So the
reference sort returns what any conforming engine returns.

## Model

| member | source | states |
|---|---|---|
| ListingValidation.ValidateListingInput | src/frontend/src/features/listings/listingValidation.ts:8-57 | The returned errors are exactly the record of violated field rules (`Errors`). `isValid` holds iff that record is empty. |
| ListingValidation.CheckTextField | src/frontend/src/features/listings/listingValidation.ts:12-16 | One text-field block, used for title, description, category, unit and location. A blank value (its `trim()` is empty) stores the required message. Otherwise a failed raw-length bound stores the bound message. Otherwise the record is unchanged. |
| ListingValidation.CheckPrice | src/frontend/src/features/listings/listingValidation.ts:26-30 | A negative price stores "Price must be positive". A price over 10,000,000 stores the upper-bound message. Otherwise the record is unchanged. |
| ListingValidation.AfterAllRulesIsErrors | src/frontend/src/features/listings/listingValidation.ts:9-51 | Running the six blocks in sequence from an empty record yields `Errors`. No block drops or overwrites another field's entry. |
| ListingValidation.CheckedFrame | src/frontend/src/features/listings/listingValidation.ts:11-51 | A block that has not run yet writes only its own key, and it leaves every other entry as it was. |
| ListingValidation.ReportsAllFields | src/frontend/src/features/listings/listingValidation.ts:9-51 | A record that reports each of the six fields correctly is `Errors`. |
| ListingValidation.BlocksAsWritten | src/frontend/src/features/listings/listingValidation.ts:11-51 | The sequence of blocks, each with its own constants and messages, builds the same record as the table-driven rules. |
| ListingValidation.FieldRules | src/frontend/src/features/listings/listingValidation.ts:12-51 | Each field errs iff it is blank or breaks its raw-length or range bound. The bounds are title > 100, description < 10, price < 0 or > 10,000,000, category > 50, unit > 20 and location > 50. The required message takes precedence over the bound message. |
| ListingValidation.KeysAreCheckedProperties | src/frontend/src/features/listings/listingValidation.ts:13-50 | The error record's keys are among the six checked fields, and each field is stored under one of the six property names "title" through "location". Neither "contactInfo" nor "images" is a key. Distinct fields have distinct keys. |
| ListingValidation.MessagesAreFixed | src/frontend/src/features/listings/listingValidation.ts:13-50 | Each present key carries one of that field's own two messages. |
| ListingValidation.FieldIndependence | src/frontend/src/features/listings/listingValidation.ts:11-51 | Two inputs that agree on field f get the same verdict and the same message for f. |
| ListingValidation.UncheckedFieldsIgnored | src/frontend/src/features/listings/listingValidation.ts:11-51 | Changing `contactInfo` or `images` does not change the errors. |
| ListingValidation.ValidIffAllRulesHold | src/frontend/src/features/listings/listingValidation.ts:53-56 | The record is empty iff all six fields meet their rules. |
| ListingValidation.AllFailuresReported | src/frontend/src/features/listings/listingValidation.ts:11-51 | The checks do not stop at the first failure: when every field fails, all six keys are reported together. |
| ListingValidation.LongTitleOnly | src/frontend/src/features/listings/listingValidation.ts:14-15 | A 101-character title on an otherwise valid input yields exactly the title-length error. |
| ListingValidation.Boundaries | src/frontend/src/features/listings/listingValidation.ts:19-30 | A price of 0 or of 10,000,000 is accepted. A ten-character description that contains two padding spaces passes, because the length is taken untrimmed. |
| Text.TrimStart | src/frontend/src/features/listings/listingValidation.ts:12 | The result is a suffix of the input. Every removed character is whitespace. The result does not start with whitespace. |
| Text.TrimEnd | src/frontend/src/features/listings/listingValidation.ts:12 | The result is a prefix of the input. Every removed character is whitespace. The result does not end with whitespace. |
| Text.Trim | src/frontend/src/features/listings/listingValidation.ts:12 | The trimmed string is no longer than the input, and when it is not empty it neither starts nor ends with whitespace. |
| Text.Includes | src/frontend/src/features/listings/listingsFiltering.ts:16-17 | `includes` can only hold when the needle fits in the haystack, and the empty needle is always included. |
| Text.TrimEmptyIffBlank | src/frontend/src/features/listings/listingValidation.ts:12 | `trim()` is empty (falsy) iff every character is whitespace. |
| Text.LowerStr | src/frontend/src/features/listings/listingsFiltering.ts:13 | Lower-casing keeps the length and maps each character through `Lower`, which affects ASCII capitals only. |
| Text.BlankLowerStr | src/frontend/src/features/listings/listingsFiltering.ts:12-13 | A string is blank iff its lower-cased form is blank. |
| Text.LowerStrIdempotent | src/frontend/src/features/listings/listingsFiltering.ts:13-17 | Lower-casing twice gives the same result as lower-casing once. |
| Text.IncludesIffOccurs | src/frontend/src/features/listings/listingsFiltering.ts:16-17 | `includes` holds iff the needle occurs at some index of the haystack. |
| Seqs.Filter | src/frontend/src/features/listings/listingsFiltering.ts:14-18 | The result is no longer than the input. An element is in the result iff it is in the input and passes the predicate. |
| Seqs.FilterMultiset | src/frontend/src/features/listings/listingsFiltering.ts:14-24 | A filter keeps each accepted element exactly as often as it occurs in the input, and no other element. |
| Seqs.FilterConcat | src/frontend/src/features/listings/listingsFiltering.ts:14-24 | Filtering a concatenation is the concatenation of the filtered parts. |
| Seqs.FilterFilter | src/frontend/src/features/listings/listingsFiltering.ts:14-24 | Two successive filters equal one filter by their conjunction. |
| Seqs.FilterExt | src/frontend/src/features/listings/listingsFiltering.ts:14-24 | Filters by pointwise-equal predicates give the same result. |
| Seqs.FilterAll | src/frontend/src/features/listings/listingsFiltering.ts:14-24 | A filter that accepts everything returns its input. |
| Seqs.FilterIsSubsequence | src/frontend/src/features/listings/listingsFiltering.ts:14-24 | A filter's result is an order-preserving subsequence of its input. |
| ListingsFiltering.MatchesQuery | src/frontend/src/features/listings/listingsFiltering.ts:15-17 | The per-listing search test holds iff the (already lower-cased) query occurs at some index of the lower-cased title or of the lower-cased description. |
| ListingsFiltering.SearchFilter | src/frontend/src/features/listings/listingsFiltering.ts:12-18 | The search step keeps, in input order, exactly the listings for which the query is blank or the lower-cased query occurs in the lower-cased title or description. |
| ListingsFiltering.CategoryFilter | src/frontend/src/features/listings/listingsFiltering.ts:22-24 | The category step keeps, in input order, exactly the listings for which the category is empty or equals the listing's category. |
| ListingsFiltering.Compare | src/frontend/src/features/listings/listingsFiltering.ts:29-35 | The comparator puts `a` no later than `b` (result at most zero) iff `a.createdAt >= b.createdAt` for "newest", `a.price <= b.price` for "price-low" and `a.price >= b.price` for "price-high". |
| ListingsFiltering.StableSort | src/frontend/src/features/listings/listingsFiltering.ts:29-35 | The reference sort keeps the length. Its sortedness, permutation and stability are the three lemmas below. |
| ListingsFiltering.FilterAndSort | src/frontend/src/features/listings/listingsFiltering.ts:9-39 | The result of the whole operation is never longer than the input. Its contents are described by the property lemmas below. |
| ListingsFiltering.ParseSortKey | src/frontend/src/features/listings/listingsFiltering.ts:27-37 | "newest", "price-low" and "price-high" each select their own key. Every other string selects no sort. |
| ListingsFiltering.CompareZeroIffSameValue | src/frontend/src/features/listings/listingsFiltering.ts:29-35 | A comparator returns zero iff the two listings have the same `createdAt` for "newest", or the same price for the other keys. |
| ListingsFiltering.StableSortSorted | src/frontend/src/features/listings/listingsFiltering.ts:29-35 | The sorted result has no pair, adjacent or not, that the comparator puts in the wrong order. |
| ListingsFiltering.StableSortPermutation | src/frontend/src/features/listings/listingsFiltering.ts:29-35 | Sorting gives a permutation of its input. |
| ListingsFiltering.StableSortStable | src/frontend/src/features/listings/listingsFiltering.ts:29-35 | Listings with equal sort values keep their input order. |
| ListingsFiltering.StableSortCharacterized | src/frontend/src/features/listings/listingsFiltering.ts:29-35 | A sequence is the sort's result iff it is sorted by the comparator and stable with respect to the input. So every stable sort agrees with this one. |
| ListingsFiltering.SortInPlace | src/frontend/src/features/listings/listingsFiltering.ts:29-35 | `filtered.sort(compare)`: the array's new contents are the stable sort of its old contents. |
| ListingsFiltering.FilterAndSortListings | src/frontend/src/features/listings/listingsFiltering.ts:3-40 | The result is a fresh array. The input array is unchanged. The result holds the search filter, then the category filter, then the sort for a recognised key applied to the input. |
| ListingsFilteringProperties.SelectedIsFilter | src/frontend/src/features/listings/listingsFiltering.ts:12-24 | The two filter steps together keep exactly the listings that pass both conditions, in input order. The search condition is stated via substring occurrence. |
| ListingsFilteringProperties.ResultIsSelection | src/frontend/src/features/listings/listingsFiltering.ts:9-24 | The result is no longer than the input. A listing is in it iff it is in the input and passes both filters. Each passing listing occurs as often as in the input and no other listing occurs, so nothing is added or duplicated. |
| ListingsFilteringProperties.SortPermutes | src/frontend/src/features/listings/listingsFiltering.ts:27-37 | Whatever the sort key, the result is a permutation of the filtered listings. |
| ListingsFilteringProperties.NoFiltersKeepsAll | src/frontend/src/features/listings/listingsFiltering.ts:12-24 | A blank query with an empty category returns a permutation of all listings. |
| ListingsFilteringProperties.BlankSearchKeepsAll | src/frontend/src/features/listings/listingsFiltering.ts:12 | A blank query leaves the listings unfiltered. |
| ListingsFilteringProperties.ResultSorted | src/frontend/src/features/listings/listingsFiltering.ts:27-36 | For a recognised `sortBy`, the result is in comparator order. |
| ListingsFilteringProperties.ResultIsOrdered | src/frontend/src/features/listings/listingsFiltering.ts:27-36 | "newest" gives non-increasing `createdAt`. "price-low" gives non-decreasing price. "price-high" gives non-increasing price. |
| ListingsFilteringProperties.ResultIsTheStableSort | src/frontend/src/features/listings/listingsFiltering.ts:29-35 | For a recognised key, a sequence is the result iff it is sorted and keeps tied listings in their filtered order. |
| ListingsFilteringProperties.UnknownSortKeepsOrder | src/frontend/src/features/listings/listingsFiltering.ts:27-37 | With any other `sortBy`, the result is the filtered input in input order, an order-preserving subsequence of the input. |
| ListingsFilteringProperties.QueryCaseIgnored | src/frontend/src/features/listings/listingsFiltering.ts:12-17 | Lower-casing the query does not change the result. |
| ListingsFilteringProperties.SortExamples | src/frontend/src/features/listings/listingsFiltering.ts:27-36 | For an older, dearer listing A and a newer, cheaper listing B: "price-low" gives [B, A], "price-high" gives [A, B] and "newest" gives [B, A]. |
| ListingsFilteringProperties.SearchCaseExample | src/frontend/src/features/listings/listingsFiltering.ts:13-17 | The query "OKRA" finds the listing titled "Okra" and only that one. |
| ListingsFilteringProperties.SearchUntrimmedExample | src/frontend/src/features/listings/listingsFiltering.ts:12-13 | The query "okra " is not trimmed before matching, so it finds neither listing. |
| ListingsFilteringProperties.BlankQueryExample | src/frontend/src/features/listings/listingsFiltering.ts:12 | A query of three spaces does no search filtering. |
| ListingsFilteringProperties.CategoryExample | src/frontend/src/features/listings/listingsFiltering.ts:22-24 | The category "Fruit" keeps only the fruit listing. |
| ListingsFilteringProperties.CategoryCaseExample | src/frontend/src/features/listings/listingsFiltering.ts:23 | Category equality is case-sensitive: "fruit" matches neither listing. |
| ListingsFilteringProperties.EmptyInEmptyOut | src/frontend/src/features/listings/listingsFiltering.ts:9-39 | An empty input gives an empty result for every query, category and sort key. |

## Left out

- `src/frontend/src/features/listings/listingsQueries.ts` is not part of this model. It wraps a caching query library and remote backend calls whose code is not available.
- The backend's listing store and its authorization checks are not part of this model. The backend is only declared, not implemented, in `src/frontend/src/backend.d.ts`.
- The React pages, components and routing are not part of this model, and neither are authentication and identity. They only call the functions modelled here or are external code.
- Prices are exact reals. `parseFloat`, NaN, infinities and floating-point rounding of `a.price - b.price` are not modelled. For finite doubles the sign of the difference, which is all the sort uses, agrees with the real difference.
- `createdAt` is an unbounded integer. `Number(b.createdAt - a.createdAt)` may round a large bigint difference, but it never changes its sign, so the order is the same.
- A Dafny `char` is a Unicode scalar value, while JavaScript's `length` counts UTF-16 code units. The length bounds therefore agree with the original only for text without characters outside the Basic Multilingual Plane.
- Text.Lower: lower-cases ASCII capitals only, because the full Unicode case mapping of `toLowerCase` is locale data, not logic.
- Text.IsWhitespace lists the ECMAScript WhiteSpace and LineTerminator code points, with the Unicode space separators of the current standard. Later Unicode additions are not tracked.
- The error record is a map keyed by a six-valued `Field` type rather than by strings. `Key` gives each field's property name and is proved injective.
- The five text-field blocks are one helper method, `CheckTextField`. `ValidateListingInput` calls it in the original order, with each field's own bound and messages. The price block is `CheckPrice`.
- The engine's sorting algorithm is replaced by an insertion sort on the copied array. `StableSortCharacterized` shows that every stable sort returns the same sequence. How many comparisons the engine makes, and in what order, is not modelled.
- Listings are values: the result and the permutation and stability statements compare listings by their contents. The original moves references to the same listing objects, but nothing in it depends on object identity.
- Each filter step returns a new sequence instead of a new array. Only the final result and the sort work on an array, which is where the original updates in place.
