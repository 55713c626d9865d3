# 1688 scraping helpers and BigSeller title clean-up, modelled in Dafny

This project models the logic at the centre of a small set of browser tools used to
list 1688.com products on a marketplace:

* **The BigSeller title clean-up userscript**, in versions 1.3 and 1.2. Its
  `smartSpaceChinese` splits a product title into a leading Latin brand and a rest:
  * the brand is upper-cased and its spaces are removed;
  * all white space is removed from the rest, which is then cut into runs of Chinese
    and of other characters;
  * each Chinese run goes to `chunkChineseSegment`. It tokenizes the run greedily
    against a word dictionary and then groups the tokens into chunks of 4 to 8
    characters by a memoised depth-first search. The first pass is strict; the second
    lets the last chunk be shorter. If neither pass finds a grouping, the run stays
    whole;
  * the pieces are joined with single spaces.

  The two versions differ in three ways. Version 1.3 tries the longest chunk first,
  requires that a chunk holding a category term end with one, and merges a number
  with a following measure word (`mergeNumberBlocks`). Version 1.2 tries the
  shortest chunk first and has neither of the other two steps.
* **The content script helpers** (`content.js`):
  * `uniq`;
  * the head of `normalizeUrl` (trim, ignore blanks, add the protocol to `//` URLs);
  * `cleanProductTitle`, which collapses white space and removes a trailing
    "- 阿里巴巴" or "- 1688.com";
  * `isLikelySupplierName`;
  * the rule that picks the product name from the candidate titles.
* **The two service workers.** The 1688 image scraper's `ervice_worker.js` and the
  plain `service_worker.js` both:
  * de-duplicate the URL groups;
  * filter every URL by image size, with a `checked` map shared by all groups so that
    each URL is fetched once;
  * download each kept image under a numbered file name
    (`<product>/<group>/<nnn>.<ext>`), plus an optional `video.<ext>`.

  On top of that, the 1688 worker:
  * de-duplicates the SKU items on the key URL + `||` + name;
  * removes SKU URLs from the main group;
  * saves SKU images under their SKU label as `<product>/sku/<nn>_<label>[_<k>].<ext>`,
    falling back to numbered SKU files when no labelled item survives.

Strings are sequences of Unicode code points. ECMAScript's `\s` set is the white-space
predicate. The dictionaries and category terms of the chunker are parameters: every
property holds for any word list. Image sizes come from an oracle
`fetch(url, n)`, where `n` counts the fetches made so far. As a result, nothing is
assumed about the network beyond one answer per request.

Imperative source loops are `method`s with loop invariants, each proved equal to a
function that states the result. This covers:
* `uniq`, the tokenizer, the candidate loop, the memoised `dfs`;
* the run loop of `smartSpaceChinese` and `mergeNumberBlocks`;
* the size filter, the SKU de-duplication and the download loops.

The memoised search is a `class` whose `memo` map agrees with the functional search
at every key. The properties are lemmas about those functions.

One might expect ten characters without dictionary words to be cut 5 + 5. The code
does something else, and the model follows the code.
`ChunkerVersions.TenPlainCharacters` proves that version 1.3 cuts them 6 + 4
(longest first chunk) and version 1.2 cuts them 4 + 6 (shortest first chunk).

`sanitizeName` cuts its result to 80 characters after trimming. A cut can therefore
leave a trailing space, so the result is not always trimmed even though every step before the cut trims.
`Naming.SanitizeMayEndInSpace` exhibits this case.

## Model

V13 is `tampermonkey/bigseller_scraped/bigseller-scrape-cleanup.user.js`; V12 is
`bigseller-scrape-cleanup.user.js`.

| member | source | states |
|---|---|---|
| Strings.Trim | tampermonkey/bigseller_scraped/bigseller-scrape-cleanup.user.js:282 | `trim()` returns a string with no white space at either end, no longer than its input |
| Strings.TrimStart | content.js:29 | leading trim removes exactly a white-space prefix and leaves a suffix that does not start with white space |
| Strings.TrimEnd | content.js:29 | trailing trim removes exactly a white-space suffix and leaves a prefix that does not end with white space |
| Strings.TrimSlice | content.js:29 | the trimmed string is a contiguous slice of the input |
| Strings.TrimEmptyIffBlank | Chrome_extension/1688_image_scraper/ervice_worker.js:2-4 | trimming gives the empty string exactly when the input is all white space |
| Strings.TrimOfTrimmed | Chrome_extension/1688_image_scraper/ervice_worker.js:3 | trimming an already trimmed string changes nothing |
| Strings.RemoveWhitespace | tampermonkey/bigseller_scraped/bigseller-scrape-cleanup.user.js:296 | `replace(/\s+/g, '')` leaves no white space and never lengthens |
| Strings.RemoveWhitespaceConcat | tampermonkey/bigseller_scraped/bigseller-scrape-cleanup.user.js:296 | white-space removal distributes over concatenation |
| Strings.CollapseWhitespace | content.js:60 | `replace(/\s+/g, ' ')` gives the empty string only for the empty string and keeps whether the first character is white space |
| Strings.CollapseSpacing | content.js:60 | after collapsing no two white-space characters are adjacent and every white space is a plain space |
| Strings.CollapseKeepsText | content.js:60 | collapsing white space keeps every non-white-space character in order |
| Strings.CollapseRun | content.js:60 | each maximal white-space run becomes exactly one space and nothing is inserted elsewhere: collapsing `a + run + b` is collapsing `a`, one space, collapsing `b` (with `Strings.CollapseOfClean` this fixes the result on every string) |
| Strings.CollapseOfClean | Chrome_extension/1688_image_scraper/ervice_worker.js:3 | a string with only single plain spaces is unchanged by collapsing |
| Strings.TrimKeepsSpacing | Chrome_extension/1688_image_scraper/ervice_worker.js:3 | trimming keeps the single-plain-space property |
| Strings.JoinThenStrip | tampermonkey/bigseller_scraped/bigseller-scrape-cleanup.user.js:348-349 | removing the spaces from `join(' ')` of pieces without white space gives their concatenation |
| Strings.DecimalString | Chrome_extension/1688_image_scraper/ervice_worker.js:17-22 | `String(n)` is a non-empty digit string without a leading zero unless it is "0" |
| Strings.ParseDecimalString | Chrome_extension/1688_image_scraper/ervice_worker.js:17-22 | reading `String(n)` back as a decimal numeral gives `n` |
| Strings.DecimalStringInjective | Chrome_extension/1688_image_scraper/ervice_worker.js:17-22 | distinct numbers have distinct decimal strings |
| Strings.UpperAsciiString | tampermonkey/bigseller_scraped/bigseller-scrape-cleanup.user.js:291 | `toUpperCase` on the brand maps each character and leaves no lower-case ASCII letter |
| Strings.LowerAsciiString | Chrome_extension/1688_image_scraper/ervice_worker.js:57 | `toLowerCase` on the extension maps each character and leaves no upper-case ASCII letter |
| Strings.NonEmpty | tampermonkey/bigseller_scraped/bigseller-scrape-cleanup.user.js:325 | `filter(Boolean)` keeps only non-empty strings |
| Strings.NonEmptyKeepsText | tampermonkey/bigseller_scraped/bigseller-scrape-cleanup.user.js:325 | dropping empty pieces keeps the concatenated text, and changes nothing when no piece is empty |
| Strings.SeparatorSplit | Chrome_extension/1688_image_scraper/ervice_worker.js:130 | two strings joined by a separator absent from both first parts determine those parts |
| Lists.Uniq | Chrome_extension/1688_image_scraper/ervice_worker.js:29-33 | the seen-set loop of `uniq` returns the order-preserving de-duplication of the truthy items |
| Lists.UniqMembership | content.js:14-25 | a string is in the output of `uniq` exactly when it occurs non-empty in the input |
| Lists.UniqNoDuplicates | service_worker.js:15-19 | `uniq` never returns an item twice |
| Lists.UniqFirstOccurrenceOrder | Chrome_extension/1688_image_scraper/ervice_worker.js:29-33 | the output lists the items in the order of their first occurrences |
| Lists.FilterIsSelection | Chrome_extension/1688_image_scraper/ervice_worker.js:178 | `filter` keeps a subsequence holding exactly the elements that pass the test |
| Lists.Dedup | Chrome_extension/1688_image_scraper/ervice_worker.js:124-134 | de-duplication by value keeps exactly the elements of its input |
| Lists.DedupIsFirstOccurrences | Chrome_extension/1688_image_scraper/ervice_worker.js:124-134 | de-duplication keeps each element once, in first-occurrence order |
| Tokenizer.MaxWordLen | tampermonkey/bigseller_scraped/bigseller-scrape-cleanup.user.js:141 | `MAX_WORD_LEN` is at least 1 and bounds every dictionary word |
| Tokenizer.MatchLenIsLongest | tampermonkey/bigseller_scraped/bigseller-scrape-cleanup.user.js:154-161 | the inner loop finds the longest dictionary word of length 2 or more at the position, or none |
| Tokenizer.LongestWordAt | tampermonkey/bigseller_scraped/bigseller-scrape-cleanup.user.js:153-161 | the descending-length loop computes that longest match |
| Tokenizer.Step | tampermonkey/bigseller_scraped/bigseller-scrape-cleanup.user.js:162-169 | every step advances by at least one character and stays inside the segment |
| Tokenizer.Tokenize | tampermonkey/bigseller_scraped/bigseller-scrape-cleanup.user.js:149-172 | `tokenizeChinese` returns the greedy longest-match tokenization of the segment |
| Tokenizer.TokenizeWith | bigseller-scrape-cleanup.user.js:72-95 | the `while` loop builds the same token list, for any word set and maximum length |
| Tokenizer.TokensNonEmpty | tampermonkey/bigseller_scraped/bigseller-scrape-cleanup.user.js:162-169 | every token is non-empty |
| Tokenizer.TokensCover | tampermonkey/bigseller_scraped/bigseller-scrape-cleanup.user.js:149-172 | the tokens concatenate to the segment |
| Tokenizer.FirstTokenIsLongest | tampermonkey/bigseller_scraped/bigseller-scrape-cleanup.user.js:152-169 | each token is the longest dictionary word at its position, or a single character when none matches |
| Tokenizer.TokensAreLongestMatches | tampermonkey/bigseller_scraped/bigseller-scrape-cleanup.user.js:149-172 | every token of the list is such a longest match |
| Tokenizer.LongestMatchDeterminesStep | tampermonkey/bigseller_scraped/bigseller-scrape-cleanup.user.js:152-169 | a longest match at a position fixes the loop's next step |
| Tokenizer.TokensUnique | tampermonkey/bigseller_scraped/bigseller-scrape-cleanup.user.js:149-172 | the tokenization is the only covering split whose pieces are all longest matches |
| Chunking.GroupLenIsJoinedLength | tampermonkey/bigseller_scraped/bigseller-scrape-cleanup.user.js:175-176 | the summed token lengths of a group are the length of the joined group |
| Chunking.GroupLenMonotone | tampermonkey/bigseller_scraped/bigseller-scrape-cleanup.user.js:198-199 | extending a group never shortens it, which justifies the `break` once it exceeds 8 |
| Chunking.GroupLenStrictlyIncreasing | tampermonkey/bigseller_scraped/bigseller-scrape-cleanup.user.js:232-233 | with non-empty tokens a longer group has a larger length, so sorting by length is ordering by end |
| Chunking.NoCategoriesNoConstraint | bigseller-scrape-cleanup.user.js:119-142 | with no category terms the category rule admits every group, which is v1.2's loop |
| Chunking.ValidIsAscending | tampermonkey/bigseller_scraped/bigseller-scrape-cleanup.user.js:197-225 | the chunk ends of a valid chunking ascend and end at the last token |
| Chunking.RenderCovers | tampermonkey/bigseller_scraped/bigseller-scrape-cleanup.user.js:240-241 | joining each chunk's tokens gives chunks that concatenate back to the tokens' text |
| Chunking.RenderLengths | tampermonkey/bigseller_scraped/bigseller-scrape-cleanup.user.js:197-212 | each rendered chunk has 4 to 8 characters, or at least 1 for the last under `allowLastShort` |
| Chunking.EveryChunkAdmissible | tampermonkey/bigseller_scraped/bigseller-scrape-cleanup.user.js:197-222 | each chunk of a valid chunking passes the length and category tests |
| Chunking.StrictIsRelaxed | tampermonkey/bigseller_scraped/bigseller-scrape-cleanup.user.js:257-260 | whatever the strict pass accepts the relaxed pass accepts too |
| Chunking.LongInputSplits | tampermonkey/bigseller_scraped/bigseller-scrape-cleanup.user.js:144-146 | chunks of at most 8 that cover a longer segment are at least two |
| Chunking.TokensOfSegment | tampermonkey/bigseller_scraped/bigseller-scrape-cleanup.user.js:174-181 | the tokens cover the segment and `totalLen` equals its length, so the second length guard repeats the first |
| ChunkerV13.Candidates | tampermonkey/bigseller_scraped/bigseller-scrape-cleanup.user.js:195-225 | every candidate end lies after the start and inside the tokens |
| ChunkerV13.CandidatesExact | tampermonkey/bigseller_scraped/bigseller-scrape-cleanup.user.js:197-224 | an end is a candidate exactly when its group passes every test |
| ChunkerV13.CandidatesSorted | tampermonkey/bigseller_scraped/bigseller-scrape-cleanup.user.js:197-225 | candidates are collected in ascending order of end |
| ChunkerV13.CollectCandidates | tampermonkey/bigseller_scraped/bigseller-scrape-cleanup.user.js:195-225 | the candidate loop, with its `break` and `continue`s, collects exactly those candidates |
| ChunkerV13.Partitioner.constructor | tampermonkey/bigseller_scraped/bigseller-scrape-cleanup.user.js:187-188 | a partitioner starts with an empty memo that agrees with the search |
| ChunkerV13.Partitioner.Dfs | tampermonkey/bigseller_scraped/bigseller-scrape-cleanup.user.js:190-252 | memoised `dfs` returns what the functional longest-first search returns, keeps every memo entry equal to it, caches its own start index when it is below the token count, and never drops a cached index |
| ChunkerV13.TryPartition | tampermonkey/bigseller_scraped/bigseller-scrape-cleanup.user.js:187-255 | `tryPartition` returns the search result from token 0 |
| ChunkerV13.ChunkChineseSegment | tampermonkey/bigseller_scraped/bigseller-scrape-cleanup.user.js:35-268 | `chunkChineseSegment` returns the functional chunking: whole if at most 8, else strict pass, relaxed pass, or whole |
| ChunkerV13.SearchSound | tampermonkey/bigseller_scraped/bigseller-scrape-cleanup.user.js:190-252 | a found split is a valid chunking |
| ChunkerV13.TryLongestSound | tampermonkey/bigseller_scraped/bigseller-scrape-cleanup.user.js:235-244 | the try loop over sorted candidates yields only valid chunkings |
| ChunkerV13.SearchComplete | tampermonkey/bigseller_scraped/bigseller-scrape-cleanup.user.js:190-252 | whenever a valid chunking exists the search finds one |
| ChunkerV13.TryLongestReaches | tampermonkey/bigseller_scraped/bigseller-scrape-cleanup.user.js:235-244 | the try loop succeeds if some remaining candidate leads to a solvable rest |
| ChunkerV13.TryLongestSkipped | tampermonkey/bigseller_scraped/bigseller-scrape-cleanup.user.js:235-244 | every candidate longer than the chosen one has an unsolvable rest |
| ChunkerV13.LongestFirst | tampermonkey/bigseller_scraped/bigseller-scrape-cleanup.user.js:232-244 | no admissible first chunk longer than the chosen one admits any valid chunking of the rest |
| ChunkerV13.SearchIsGreatest | tampermonkey/bigseller_scraped/bigseller-scrape-cleanup.user.js:232-244 | the found split is the lexicographically greatest valid chunking |
| ChunkerV13.SearchFirstStep | tampermonkey/bigseller_scraped/bigseller-scrape-cleanup.user.js:238-241 | the found split is its first chunk followed by the search result from that chunk's end |
| ChunkerV13.PassResult | tampermonkey/bigseller_scraped/bigseller-scrape-cleanup.user.js:257-260 | a successful pass returns the rendering of a valid chunking, covering the tokens' text, with lawful chunk lengths |
| ChunkerV13.ChunkSegmentShape | tampermonkey/bigseller_scraped/bigseller-scrape-cleanup.user.js:35-268 | the chunks always concatenate to the segment; a segment of at most 8 stays whole; otherwise it stays whole or splits into 2 or more lawful chunks |
| ChunkerV13.StrictPassWins | tampermonkey/bigseller_scraped/bigseller-scrape-cleanup.user.js:257-260 | when a strict chunking exists the strict pass's lexicographically greatest one is the answer |
| ChunkerV13.FallbackOnlyWhenUnchunkable | tampermonkey/bigseller_scraped/bigseller-scrape-cleanup.user.js:257-265 | a long segment with a relaxed chunking is never returned whole |
| ChunkerV13.FallbackExactlyWhenUnchunkable | tampermonkey/bigseller_scraped/bigseller-scrape-cleanup.user.js:257-265 | a long segment is returned whole exactly when no relaxed chunking exists |
| ChunkerV13.ChunkSegmentObeysRules | tampermonkey/bigseller_scraped/bigseller-scrape-cleanup.user.js:195-267 | any split answer is the rendering of an ascending chunking that obeys the length and category rules |
| ChunkerV12.FitsIsAdmissible | bigseller-scrape-cleanup.user.js:119-134 | v1.2's in-loop tests are the shared admissibility with no category terms |
| ChunkerV12.Partitioner.constructor | bigseller-scrape-cleanup.user.js:109-110 | a partitioner starts with an empty memo that agrees with the search |
| ChunkerV12.Partitioner.Dfs | bigseller-scrape-cleanup.user.js:112-150 | memoised `dfs` with its shortest-first loop returns the functional search result, keeps the memo agreeing with it, caches its own start index when it is below the token count, and never drops a cached index |
| ChunkerV12.TryPartition | bigseller-scrape-cleanup.user.js:109-153 | `tryPartition` returns the search result from token 0 |
| ChunkerV12.ChunkChineseSegment | bigseller-scrape-cleanup.user.js:36-166 | `chunkChineseSegment` returns the functional chunking with the same fall-backs |
| ChunkerV12.SearchSound | bigseller-scrape-cleanup.user.js:112-150 | a found split is a valid chunking |
| ChunkerV12.TryShortestSound | bigseller-scrape-cleanup.user.js:119-142 | the loop from any end yields only valid chunkings |
| ChunkerV12.SearchComplete | bigseller-scrape-cleanup.user.js:112-150 | whenever a valid chunking exists the search finds one |
| ChunkerV12.TryShortestReaches | bigseller-scrape-cleanup.user.js:119-142 | the loop succeeds if a later lawful end has a solvable rest |
| ChunkerV12.TryShortestSkipped | bigseller-scrape-cleanup.user.js:136-141 | every lawful end before the chosen one has an unsolvable rest |
| ChunkerV12.TryShortestFrom | bigseller-scrape-cleanup.user.js:136-140 | the loop's answer is a chosen end followed by the search from it |
| ChunkerV12.ShortestFirst | bigseller-scrape-cleanup.user.js:119-142 | no admissible first chunk shorter than the chosen one admits any valid chunking of the rest |
| ChunkerV12.SearchIsLeast | bigseller-scrape-cleanup.user.js:119-142 | the found split is the lexicographically least valid chunking |
| ChunkerV12.PassResult | bigseller-scrape-cleanup.user.js:155-158 | a successful pass returns the rendering of a valid chunking covering the tokens' text with lawful lengths |
| ChunkerV12.ChunkSegmentShape | bigseller-scrape-cleanup.user.js:36-166 | the chunks concatenate to the segment; a short segment stays whole; otherwise whole or 2 or more lawful chunks |
| ChunkerV12.StrictPassWins | bigseller-scrape-cleanup.user.js:155-158 | when a strict chunking exists the answer is the strict pass's least one |
| ChunkerV12.FallbackOnlyWhenUnchunkable | bigseller-scrape-cleanup.user.js:155-163 | a long segment with a relaxed chunking is never returned whole |
| ChunkerV12.FallbackExactlyWhenUnchunkable | bigseller-scrape-cleanup.user.js:155-163 | a long segment is returned whole exactly when no relaxed chunking exists |
| ChunkerV12.ChunkSegmentObeysRules | bigseller-scrape-cleanup.user.js:119-165 | any split answer renders an ascending chunking that obeys the length rules |
| ChunkerVersions.SameSuccess | bigseller-scrape-cleanup.user.js:112-150 | with no category terms the v1.3 and v1.2 searches succeed on exactly the same inputs |
| ChunkerVersions.ShortestBeforeLongest | bigseller-scrape-cleanup.user.js:119-142 | with no category terms v1.2's split is lexicographically at most v1.3's |
| ChunkerVersions.SameFallback | bigseller-scrape-cleanup.user.js:155-165 | v1.2 leaves a segment whole exactly when v1.3 without category terms does |
| ChunkerVersions.StrictUnitChunk | tampermonkey/bigseller_scraped/bigseller-scrape-cleanup.user.js:197-212 | with one-character tokens a strict chunk spans 4 to 8 tokens |
| ChunkerVersions.TenUnitsChunked | tampermonkey/bigseller_scraped/bigseller-scrape-cleanup.user.js:197-212 | ten one-character tokens can only be chunked strictly as two chunks with the cut after 4, 5 or 6 |
| ChunkerVersions.UnitChunkAdmissible | tampermonkey/bigseller_scraped/bigseller-scrape-cleanup.user.js:197-222 | with one-character non-category tokens any group of 4 to 8 tokens is admissible |
| ChunkerVersions.PlainTokens | tampermonkey/bigseller_scraped/bigseller-scrape-cleanup.user.js:162-169 | with no dictionary word in the segment every token is one character |
| ChunkerVersions.TenPlainCharacters | tampermonkey/bigseller_scraped/bigseller-scrape-cleanup.user.js:232-244 | ten characters without dictionary or category words are cut 6 + 4 by v1.3 and 4 + 6 by v1.2 |
| TitleRuns.BrandTailIsLongest | tampermonkey/bigseller_scraped/bigseller-scrape-cleanup.user.js:287 | the brand pattern's tail takes every following letter, digit, space, `&` and `-` and stops at the first other character |
| TitleRuns.BrandMatchIsGreedy | tampermonkey/bigseller_scraped/bigseller-scrape-cleanup.user.js:287 | the brand match is empty exactly when the title does not start with an ASCII letter, and is otherwise the longest run of brand characters |
| TitleRuns.BrandShape | tampermonkey/bigseller_scraped/bigseller-scrape-cleanup.user.js:289-293 | the brand has no white space and no lower-case letter, and is empty exactly when nothing matched |
| TitleRuns.RunsCover | tampermonkey/bigseller_scraped/bigseller-scrape-cleanup.user.js:315-323 | the runs concatenate to the text and are empty only for empty text |
| TitleRuns.RunsWellFormed | tampermonkey/bigseller_scraped/bigseller-scrape-cleanup.user.js:315-323 | runs are non-empty, uniform in kind, and alternate between Chinese and other |
| TitleRuns.FlushOther | tampermonkey/bigseller_scraped/bigseller-scrape-cleanup.user.js:308-309 | a non-Chinese buffer yields at most one trimmed, non-empty piece |
| TitleRuns.JoinShape | tampermonkey/bigseller_scraped/bigseller-scrape-cleanup.user.js:348-349 | joining non-empty pieces without white space gives a trimmed string with single plain spaces, empty only for no pieces |
| TitleRuns.JoinStartsWithFirst | tampermonkey/bigseller_scraped/bigseller-scrape-cleanup.user.js:349 | the joined part starts with its first piece |
| TitleRuns.PrefixKeepsSpacing | tampermonkey/bigseller_scraped/bigseller-scrape-cleanup.user.js:354-357 | putting the brand directly before the joined part keeps it trimmed with single plain spaces |
| TitleV13.Flush | tampermonkey/bigseller_scraped/bigseller-scrape-cleanup.user.js:302-313 | `flush` emits the chunks of a Chinese buffer, the trimmed non-empty other buffer, or nothing for an empty buffer |
| TitleV13.FlushKeepsText | tampermonkey/bigseller_scraped/bigseller-scrape-cleanup.user.js:302-313 | a flushed run's pieces concatenate to the run's text |
| TitleV13.GatherStep | tampermonkey/bigseller_scraped/bigseller-scrape-cleanup.user.js:315-322 | one loop iteration keeps "tokens so far are the pieces of the completed runs, buffer is the open run" |
| TitleV13.SplitAndChunk | tampermonkey/bigseller_scraped/bigseller-scrape-cleanup.user.js:298-323 | the character loop with its flushes produces the pieces of the text's runs |
| TitleV13.PiecesKeepText | tampermonkey/bigseller_scraped/bigseller-scrape-cleanup.user.js:298-323 | all pieces together concatenate to the white-space-free rest |
| TitleV13.MergeNumberBlocks | tampermonkey/bigseller_scraped/bigseller-scrape-cleanup.user.js:328-346 | the loop with its `i++` skip computes the merge specification |
| TitleV13.MergeKeepsText | tampermonkey/bigseller_scraped/bigseller-scrape-cleanup.user.js:328-346 | merging number blocks keeps the concatenated text |
| TitleV13.MergeKeepsPieces | tampermonkey/bigseller_scraped/bigseller-scrape-cleanup.user.js:328-346 | merging never adds pieces and keeps them non-empty |
| TitleV13.MergePassesThrough | tampermonkey/bigseller_scraped/bigseller-scrape-cleanup.user.js:333-343 | with no digit piece followed by a measure-word piece nothing changes |
| TitleV13.MergeHead | tampermonkey/bigseller_scraped/bigseller-scrape-cleanup.user.js:333-343 | the first merged piece extends the first input piece |
| TitleV13.MergeLeavesNoPair | tampermonkey/bigseller_scraped/bigseller-scrape-cleanup.user.js:328-346 | after merging no all-digit piece is followed by a piece starting with a measure word |
| TitleV13.JoinedPart | tampermonkey/bigseller_scraped/bigseller-scrape-cleanup.user.js:325-349 | the merged pieces are non-empty, free of white space, and the joined part without spaces is the rest |
| TitleV13.SmartSpaceChinese | tampermonkey/bigseller_scraped/bigseller-scrape-cleanup.user.js:280-361 | `smartSpaceChinese` returns the functional result, including `''` for a missing title |
| TitleV13.SmartSpaceKeepsText | tampermonkey/bigseller_scraped/bigseller-scrape-cleanup.user.js:280-361 | the output without spaces is the brand and the rest; it starts with the brand and the character right behind the brand is not white space (brand and Chinese part are joined with no space); a missing title gives `''` |
| TitleV13.SmartSpaceSpacing | tampermonkey/bigseller_scraped/bigseller-scrape-cleanup.user.js:280-361 | the output is trimmed and every space is a single plain space |
| TitleV12.Flush | bigseller-scrape-cleanup.user.js:200-211 | v1.2's `flush` emits the chunks of a Chinese buffer, the trimmed other buffer, or nothing |
| TitleV12.FlushKeepsText | bigseller-scrape-cleanup.user.js:200-211 | a flushed run's pieces concatenate to its text |
| TitleV12.GatherStep | bigseller-scrape-cleanup.user.js:213-220 | one loop iteration keeps the pieces-of-completed-runs invariant |
| TitleV12.SplitAndChunk | bigseller-scrape-cleanup.user.js:196-221 | the loop produces the pieces of the runs |
| TitleV12.PiecesKeepText | bigseller-scrape-cleanup.user.js:196-221 | the pieces concatenate to the rest |
| TitleV12.JoinedPart | bigseller-scrape-cleanup.user.js:224 | the non-empty pieces have no white space and the joined part without spaces is the rest |
| TitleV12.SmartSpaceChinese | bigseller-scrape-cleanup.user.js:178-236 | v1.2's `smartSpaceChinese` returns the functional result |
| TitleV12.SmartSpaceKeepsText | bigseller-scrape-cleanup.user.js:178-236 | the output without spaces is the brand and the rest, starting with the brand, with no white space right behind the brand; `''` for a missing title |
| TitleV12.SmartSpaceSpacing | bigseller-scrape-cleanup.user.js:178-236 | the output is trimmed with single plain spaces |
| ContentScript.NormalizeUrlHeadShape | content.js:27-31 | a missing or blank URL gives `null`; otherwise the result ends with the trimmed URL and, for a plain protocol, is trimmed and no longer starts with `//` |
| ContentScript.NormalizeUrlHeadIdempotent | content.js:27-31 | normalising twice gives the same as normalising once |
| ContentScript.NormalizedIsFixed | content.js:27-31 | a trimmed non-empty URL not starting with `//` is returned as it is |
| ContentScript.DashSuffixStartMatches | content.js:61-62 | the position the suffix search reports is the start of a real " - word" match at the end |
| ContentScript.DashSuffixStartLeftmost | content.js:61-62 | the reported match start is the leftmost possible, as the regex's leading `\s*` makes it |
| ContentScript.StripDashSuffixSpec | content.js:61-62 | removing the suffix leaves a prefix; without a match nothing changes; with one the result stops at the match |
| ContentScript.CleanProductTitleShape | content.js:58-64 | the cleaned title is trimmed with single plain spaces, a prefix of the collapsed title, and `''` for a missing one |
| ContentScript.CleanProductTitleNoSuffix | content.js:58-64 | a title with neither suffix is only collapsed and trimmed |
| ContentScript.CleanProductTitleStripsMarketplace | content.js:61 | a trailing "- 阿里巴巴" is removed from its start on |
| ContentScript.CleanProductTitleStripsSite | content.js:62 | a trailing "- 1688.com", in any case, is removed from its start on |
| ContentScript.SuffixesExclusive | content.js:61-62 | a title cannot end with both suffixes at once |
| ContentScript.OccursFromSpec | content.js:68 | the keyword scan finds a word exactly when it occurs at or after the start |
| ContentScript.ContainsAnySpec | content.js:68 | the alternation test holds exactly when some keyword occurs somewhere |
| ContentScript.SupplierNameRule | content.js:65-70 | a name is likely a supplier's exactly when it is non-empty and shorter than 8 or holds a keyword |
| ContentScript.FindGoodTitle | content.js:101-105 | the candidate loop returns the first trimmed candidate that is a good title |
| ContentScript.FirstGoodSpec | content.js:101-105 | the found title is the first candidate passing the test, and no title means none passes |
| ContentScript.FirstLongestSpec | content.js:106 | the fallback is a longest candidate, the first of its length |
| ContentScript.FirstLongestNonEmpty | content.js:106 | dropping empty candidates does not change the longest first candidate |
| ContentScript.SelectProductName | content.js:101-107 | the selection code returns the functional product-name rule |
| ContentScript.ChooseProductNameRule | content.js:101-107 | the name is never empty: the first good title, otherwise the first longest non-empty candidate, otherwise `1688_product` |
| Naming.ReplaceForbidden | Chrome_extension/1688_image_scraper/ervice_worker.js:3 | each of `\ / : * ? " < > \|` becomes `_` and every other character stays |
| Naming.CleanedName | Chrome_extension/1688_image_scraper/ervice_worker.js:3 | after replacement, collapse and trim the name has no forbidden character and single plain spaces |
| Naming.SanitizeShape | Chrome_extension/1688_image_scraper/ervice_worker.js:1-7 | a sanitised name is 1 to the limit long, has no forbidden character, no leading white space, single plain spaces |
| Naming.CutShape | Chrome_extension/1688_image_scraper/ervice_worker.js:5 | cutting a clean name to the limit keeps it safe |
| Naming.SanitizeKeepsClean | Chrome_extension/1688_image_scraper/ervice_worker.js:1-7 | a clean name within the limit is returned as it is |
| Naming.SanitizeCutsClean | Chrome_extension/1688_image_scraper/ervice_worker.js:1-7 | a clean name is only cut to the limit |
| Naming.SanitizeIdempotent | Chrome_extension/1688_image_scraper/ervice_worker.js:1-7 | sanitising a trimmed sanitised name changes nothing |
| Naming.SanitizeMayEndInSpace | Chrome_extension/1688_image_scraper/ervice_worker.js:5 | 79 letters, a space and a letter sanitise to 80 characters ending in a space, whatever the default |
| Naming.SanitizeMissing | Chrome_extension/1688_image_scraper/ervice_worker.js:2 | a missing name gives the default |
| Naming.SanitizeBlank | Chrome_extension/1688_image_scraper/ervice_worker.js:4 | an all-white-space name gives the default |
| Naming.SanitizeName | Chrome_extension/1688_image_scraper/ervice_worker.js:1-7 | `sanitizeName` returns a safe name of at most 80 characters |
| Naming.SanitizeSkuFile | Chrome_extension/1688_image_scraper/ervice_worker.js:9-15 | `sanitizeSkuFile` returns a safe name of at most 120 characters |
| Naming.SanitizeDefaults | service_worker.js:1-7 | blank names become `1688_product` and `sku` |
| Naming.Zeros | Chrome_extension/1688_image_scraper/ervice_worker.js:22 | padding is a run of digits of the asked length |
| Naming.Pad2Value | Chrome_extension/1688_image_scraper/ervice_worker.js:17-20 | `pad2` gives at least two digits that read back as the number, a leading zero only below 10 |
| Naming.Pad3Value | service_worker.js:8 | `pad3` gives at least three digits, ending in `String(n)`, preceded by zeros, that read back as the number |
| Naming.Pad2Injective | Chrome_extension/1688_image_scraper/ervice_worker.js:17-20 | distinct numbers get distinct `pad2` strings |
| Naming.Pad3Injective | Chrome_extension/1688_image_scraper/ervice_worker.js:22 | distinct numbers get distinct `pad3` strings |
| Naming.FirstAlt | Chrome_extension/1688_image_scraper/ervice_worker.js:55 | the regex alternation picks an extension that really matches at the dot |
| Naming.FirstAltComplete | Chrome_extension/1688_image_scraper/ervice_worker.js:55 | the alternation fails exactly when no extension matches there |
| Naming.FindExt | Chrome_extension/1688_image_scraper/ervice_worker.js:55 | the scan reports -1 or a position where an extension matches |
| Naming.FindExtLeftmost | Chrome_extension/1688_image_scraper/ervice_worker.js:55 | the scan reports the leftmost match, or -1 when there is none |
| Naming.GuessExtRange | Chrome_extension/1688_image_scraper/ervice_worker.js:54-59 | `guessExt` is one of jpg, png, webp, gif; with a match it is the alternative matched at the leftmost match, `jpeg` written `jpg`; without a match it is jpg |
| Naming.GuessExtMatched | Chrome_extension/1688_image_scraper/ervice_worker.js:54-59 | when the pattern matches, `guessExt` returns the lower-cased alternative matched at the leftmost match, with `jpeg` written `jpg` |
| Naming.GuessVideoExtRange | Chrome_extension/1688_image_scraper/ervice_worker.js:61-64 | `guessVideoExt` is one of mp4, m3u8, webm, mov; with a match it is the alternative matched at the leftmost match; without a match it is mp4 |
| Naming.GuessVideoExtMatched | Chrome_extension/1688_image_scraper/ervice_worker.js:61-64 | when the pattern matches, `guessVideoExt` returns the lower-cased alternative matched at the leftmost match |
| Naming.NumberedFilesDistinct | Chrome_extension/1688_image_scraper/ervice_worker.js:72-76 | different indexes in one folder give different file names |
| Naming.SubFoldersSeparate | Chrome_extension/1688_image_scraper/ervice_worker.js:192-198 | numbered files in different sub-folders never share a name |
| Naming.SkuFilesDistinct | Chrome_extension/1688_image_scraper/ervice_worker.js:213-218 | labelled SKU files with different sequence numbers never share a name |
| SizeCache.MinSizeOf | Chrome_extension/1688_image_scraper/ervice_worker.js:105 | the minimum is at least 1, 500 when none is given, and the given value raised to 1 otherwise |
| SizeCache.FilterBySize | Chrome_extension/1688_image_scraper/ervice_worker.js:146-159 | the loop over one group, with its `checked` map, computes one filter pass |
| SizeCache.FilterSpecJudges | Chrome_extension/1688_image_scraper/ervice_worker.js:147-158 | after a pass the cache judges exactly what it did before plus every non-empty URL of the group |
| SizeCache.FilterSpecProperties | Chrome_extension/1688_image_scraper/ervice_worker.js:147-158 | a pass fetches no URL twice, keeps every old verdict, and keeps exactly the items its cache approves, in order |
| SizeCache.FilterKeepsOrder | Chrome_extension/1688_image_scraper/ervice_worker.js:147-158 | what a pass keeps is a subsequence of the group with non-empty URLs |
| SizeCache.LaterCacheDecides | Chrome_extension/1688_image_scraper/ervice_worker.js:146-175 | any later extension of the cache still explains what an earlier pass kept |
| Downloads.DownloadNumbered | service_worker.js:136-142 | the numbered loop issues one download per URL, numbered from 1, and counts them |
| Downloads.NumberedNames | Chrome_extension/1688_image_scraper/ervice_worker.js:192-198 | the k-th URL is saved as `<product>/<sub>/<pad3(k + 1)>.<ext>` |
| Downloads.SeparateGroups | Chrome_extension/1688_image_scraper/ervice_worker.js:192-198 | two groups in different sub-folders never share a file name |
| Downloads.VideoExtHasNoSlash | Chrome_extension/1688_image_scraper/ervice_worker.js:61-64 | a guessed video extension holds no `/` |
| Downloads.VideoIsNotNumbered | Chrome_extension/1688_image_scraper/ervice_worker.js:65-76 | the video file never has a numbered image's name |
| Downloads.VideoApart | Chrome_extension/1688_image_scraper/ervice_worker.js:186-198 | the video file differs from every numbered file of a group |
| ScrapeWorker.HandleScrape | service_worker.js:91-149 | with `minSize` computed from the request's value by `MinSizeOf`, the handler body returns the functional outcome: counts, downloads, note and download requests |
| ScrapeWorker.ScrapeTotals | service_worker.js:127-149 | `downloaded` is the sum of the three counts, the requests are those plus the video, and the note is empty exactly when something was downloaded |
| ScrapeWorker.FilterGroupsCache | service_worker.js:109-125 | after all three groups the shared cache is consistent and extends each group's cache |
| ScrapeWorker.FilterGroupsDecided | service_worker.js:109-125 | each group keeps exactly the URLs the final cache approves |
| ScrapeWorker.ScrapeFetchesOnce | service_worker.js:109-125 | every non-empty URL of any group is fetched exactly once |
| ScrapeWorker.ScrapeUniform | service_worker.js:109-125 | a URL is kept in every group it occurs in or in none, and each group keeps a subsequence |
| ScrapeWorker.Selected | service_worker.js:112-124 | filtering a URL list by a cache keeps a subsequence of exactly the approved URLs |
| ScrapeWorker.ImagesDistinct | service_worker.js:136-142 | the numbered files of the three groups all have different names |
| ScrapeWorker.VideoApartFromImages | service_worker.js:132-142 | the video file's name differs from every image file's |
| ScrapeWorker.ScrapeFilenamesDistinct | service_worker.js:101-149 | all downloads of one run have different file names, so no `uniquify` renaming is needed |
| SkuWorker.Cleaned | Chrome_extension/1688_image_scraper/ervice_worker.js:126-129 | items without a URL are skipped, so every kept item has a URL |
| SkuWorker.CleanedMembers | Chrome_extension/1688_image_scraper/ervice_worker.js:126-133 | an item is produced exactly when some raw item with that URL and sanitised name exists |
| SkuWorker.CleanedNoBars | Chrome_extension/1688_image_scraper/ervice_worker.js:129 | sanitised SKU names contain no `\|` |
| SkuWorker.SanitizedHaveNoBars | Chrome_extension/1688_image_scraper/ervice_worker.js:9-15 | `sanitizeSkuFile` never returns a `\|` |
| SkuWorker.KeyInjective | Chrome_extension/1688_image_scraper/ervice_worker.js:130 | the key URL + `\|\|` + name determines the item when names hold no `\|` |
| SkuWorker.DedupSkuItems | Chrome_extension/1688_image_scraper/ervice_worker.js:124-134 | the key-set loop returns the de-duplication of the cleaned items |
| SkuWorker.SkuDedupSpec | Chrome_extension/1688_image_scraper/ervice_worker.js:124-134 | the item list holds every cleaned item, no key twice, in first-occurrence order |
| SkuWorker.BuildSkuUrlSet | Chrome_extension/1688_image_scraper/ervice_worker.js:137-139 | the loop builds the set of SKU group URLs and SKU item URLs |
| SkuWorker.WithoutSkuUrlsSpec | Chrome_extension/1688_image_scraper/ervice_worker.js:178 | the main group keeps exactly its URLs outside the set, in order |
| SkuWorker.MainWithoutSku | Chrome_extension/1688_image_scraper/ervice_worker.js:137-178 | the final main list holds no SKU URL, and keeps every other kept main URL |
| SkuWorker.SkuFetchesOnce | Chrome_extension/1688_image_scraper/ervice_worker.js:143-175 | the SKU item pass reuses the groups' cache: still no URL fetched twice, and every list is what the final cache approves |
| SkuWorker.DownloadNamed | Chrome_extension/1688_image_scraper/ervice_worker.js:202-221 | the labelled-SKU loop issues the requests of the naming specification and counts them |
| SkuWorker.NamedSpecUrls | Chrome_extension/1688_image_scraper/ervice_worker.js:207-210 | each non-empty item URL is saved once, so there are at most as many files as items |
| SkuWorker.NamedSpecRepeats | Chrome_extension/1688_image_scraper/ervice_worker.js:212-216 | within one label, a later file has a larger repeat number, and the number is 1 exactly for the label's first file |
| SkuWorker.NamedSpecCounts | Chrome_extension/1688_image_scraper/ervice_worker.js:212-216 | the j-th file of a label gets repeat number j (suffix `_j` from the second on), and `nameSeen` maps each label to the number of its files |
| SkuWorker.NamedSuffixes | Chrome_extension/1688_image_scraper/ervice_worker.js:214-216 | a file has no `_<n>` suffix exactly when no earlier file has its label |
| SkuWorker.RepeatSuffixEmpty | Chrome_extension/1688_image_scraper/ervice_worker.js:216 | the suffix is empty exactly for the first use of a label |
| SkuWorker.NamedDistinct | Chrome_extension/1688_image_scraper/ervice_worker.js:213-218 | labelled SKU files all have different names |
| SkuWorker.SkuFileApart | Chrome_extension/1688_image_scraper/ervice_worker.js:192-218 | a labelled SKU file never has the name of a details or main file |
| SkuWorker.VideoIsNotSkuFile | Chrome_extension/1688_image_scraper/ervice_worker.js:186-218 | the video file never has a labelled SKU file's name |
| SkuWorker.SaveSkuFiles | Chrome_extension/1688_image_scraper/ervice_worker.js:180-234 | the download part returns the functional answer, using labelled files when any item survived and numbered ones otherwise |
| SkuWorker.RunSkuScrape | Chrome_extension/1688_image_scraper/ervice_worker.js:121-234 | the handler after the product name returns the functional outcome |
| SkuWorker.HandleSkuScrape | Chrome_extension/1688_image_scraper/ervice_worker.js:105-234 | with `minSize` computed from the request's value by `MinSizeOf`, the handler body returns the functional outcome for the sanitised product name |
| SkuWorker.SkuScrapeShape | Chrome_extension/1688_image_scraper/ervice_worker.js:115-234 | main holds no SKU URL; `downloaded` counts details, main, and the labelled files or the SKU group; labelled files never outnumber `skuNamed` |
| SkuWorker.SkuImagesDistinct | Chrome_extension/1688_image_scraper/ervice_worker.js:192-228 | the image downloads all have different names, in both SKU branches |
| SkuWorker.SkuRequestsDistinct | Chrome_extension/1688_image_scraper/ervice_worker.js:186-228 | the video and all image downloads have different names |
| SkuWorker.SkuFilenamesDistinct | Chrome_extension/1688_image_scraper/ervice_worker.js:115-234 | every download of one run has its own file name |

## Left out

- Chinese-script conversion (the OpenCC call in the userscripts) and every DOM, button and keyboard handler of the userscripts and of `content.js`: these touch the page, not the logic modelled here.
- The regex extraction in `content.js`: the `extract*`/`parse*` functions, the embedded-title patterns, and the two thumbnail rewrites at the end of `normalizeUrl`. Only the protocol and trimming head of `normalizeUrl` is modelled.
- `fetchImageSize`, `createImageBitmap`, timeouts, `chrome.*` messaging, tab checks, the `FETCH_TEXT` message and `try`/`catch` error replies: asynchronous I/O, replaced by the `fetch(url, n)` oracle and by the outcome values.
- Download failures: `downloadVideoBase` is wrapped in a `try` that ignores errors, and every requested download is taken as issued. The `conflictAction: 'uniquify'` renaming is not modelled; instead `ScrapeWorker.ScrapeFilenamesDistinct` and `SkuWorker.SkuFilenamesDistinct` show it is never needed within one run.
- `popup.js`, the Python scripts and the listing-draft userscript are not part of this model.
- SizeCache.MinSizeOf: the request's `minSize` is taken as missing or a whole number. A value `parseInt` cannot read (NaN, which keeps no image) and a numeric string "0" (which gives 1, not 500) are not modelled.
- Lengths are counted in code points. `String.length` counts UTF-16 units, which differ from code points only outside the Basic Multilingual Plane. It is used in `content.js`, in the sanitisers, and in three places in the chunkers: the longest dictionary word `MAX_WORD_LEN` (tampermonkey/bigseller_scraped/bigseller-scrape-cleanup.user.js:141, bigseller-scrape-cleanup.user.js:64), the step `i += matched.length` after a dictionary match (lines 164 and 87), and the brand cut `trimmed.slice(brandMatch[0].length)` (lines 292 and 190). Every dictionary word and every character the brand pattern matches lies in the Basic Multilingual Plane, so there the two counts agree. Group and chunk lengths use `Array.from`, which counts code points as the model does.
- Inputs that are neither a string nor missing (numbers passed to `String(...)`, non-array groups) are not modelled; a missing value is `None` or the empty string.
- The word dictionary and the category terms of the chunker are parameters, not the hard-coded lists; the lemmas hold for every such list. The measure words of `mergeNumberBlocks` are the source's own fixed list (`TitleV13.IsMeasureChar`).
- Downloads.NumberedNames: the file-name lemmas take the extension function as a parameter and are used with `guessExt`, so which extension a given URL gets is stated by `Naming.GuessExtRange`, not by them.
- SkuWorker.DedupSkuItems: requires that the sanitiser never returns `|`, which `SkuWorker.SanitizedHaveNoBars` shows for `sanitizeSkuFile`; with an arbitrary sanitiser the `||` key could merge distinct items.
- Naming.SanitizeIdempotent: holds only when the sanitised name is trimmed, because a cut at the length limit can leave a trailing space (`Naming.SanitizeMayEndInSpace`).
- ChunkerV13.Search: tries the candidate ends in reverse order, which agrees with the source's stable sort by descending length only when no two candidates tie in length. That holds for the non-empty tokens the tokenizer produces (`Tokenizer.TokensNonEmpty`), so `ChunkChineseSegment` is unaffected; for a hand-made token list with an empty token the order of tied candidates is not modelled.
