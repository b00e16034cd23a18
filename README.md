# Jewellery listing titles

A model in Dafny of the two pure cores of `title.py`, a small tool that turns a
jewellery product page into a marketplace title.

- `build_product_url` takes what the user typed and normalises it. The input is
  stripped of surrounding whitespace. An address already under
  `https://alamodeonline.com/products/` (case ignored) is kept as typed. A bare
  SKU (two or three ASCII letters, then three to five digits) is lower-cased
  and put under that path. Anything else is refused. Module `ProductUrl`
  (`product_url.dfy`) models it as a function returning an `Option`.
- `transform_title` composes the title from the page's raw title and its tags.
  A set of used terms, filled through the nested `add_term`, makes sure every
  display term is claimed at most once, ignoring case. Four mandatory sections
  are built in priority order and joined with `", "`, with empty sections left
  out:
  - the base "Women's Ring" or "Women's Ring Set";
  - styles from a fixed vocabulary, matched by substring against the tags;
  - the stone, with an optional colour and shape;
  - the metal.
  The descriptors "2 Pcs", "High Polished" and "Gift" are then appended one at
  a time, each only if the title stays within 75 characters. Module `Title`
  (`title.dfy`) models this two ways:
  - `UsedTerms` is a class whose `Add` method is `add_term`, and
    `TransformTitle` is a method with the source's loops, proved equal to the
    functional description `Title(raw, tags)`;
  - `Plan` gives each section as a function of the inputs, and the lemmas
    state what the source promises about it.

`Text` (`text.dfy`) holds the ASCII models of the Python string operations
used: `lower`, `capitalize`, `strip`, `startswith`, `in` on strings,
`replace`, `join` and `filter(None, ...)`. `Wrappers` (`wrappers.dfy`) holds
`Option`.

## Model

| member | source | states |
|---|---|---|
| ProductUrl.BuildProductUrl | title.py:1-8 | None exactly when the stripped input neither starts with the product path (ignoring case) nor is a SKU. An address under the path comes back stripped but otherwise as typed. A SKU becomes the path followed by the lower-cased SKU. |
| ProductUrl.SkuShape | title.py:5 | A SKU has five to eight characters. The first two are letters and the last three are digits. Letters and digits split in only one way, and a SKU has no surrounding whitespace. |
| ProductUrl.LowerSku | title.py:5-6 | Lower-casing a SKU gives a SKU with no capitals that still ends in a digit. |
| ProductUrl.SkuUrl | title.py:6 | The address built from a SKU starts with the product path (also after lower-casing), is non-empty, has no surrounding whitespace, and continues with exactly the lower-cased SKU. |
| ProductUrl.BuildProductUrlResult | title.py:2-6 | Every address returned is under the product path (ignoring case), non-empty and without surrounding whitespace. In the SKU case what follows the path is a SKU with no capitals. |
| ProductUrl.BuildProductUrlIdempotent | title.py:2-6 | Feeding a returned address back in gives the same address, through the first branch. |
| Text.Lower | title.py:39 | `lower` keeps the length. Each ASCII capital becomes its small letter (code point plus 32), every other character is unchanged, and no capital is left. |
| Text.Capitalize | title.py:55 | `capitalize` keeps the length. The first character is upper-cased and the rest lower-cased. |
| Text.LowerCapitalize | title.py:71 | Capitalizing a word of small letters and lower-casing it again gives the word back. This is why a style or shape is blocked by exactly its own vocabulary word. |
| Text.TrimStart | title.py:2 | The result is a suffix of the input, does not start with whitespace, and everything removed is whitespace. |
| Text.TrimEnd | title.py:119 | The result is a prefix of the input, does not end with whitespace, and everything removed is whitespace. |
| Text.Strip | title.py:119 | `strip` leaves no whitespace at either end and never lengthens. The result is one contiguous piece of the input, and everything before and after it is whitespace. |
| Text.StripTrimmed | title.py:119 | `strip` changes nothing on a string without surrounding whitespace. |
| Text.ContainsFacts | title.py:46 | Python's `in` on strings: the empty string occurs in every string, a prefix occurs, nothing longer occurs, and an occurrence survives text added on either side. |
| Text.ReplaceAll | title.py:68 | `replace` of a pattern by itself changes nothing. Where the pattern does not start the string, the first character is kept. |
| Text.ReplaceAllAbsent | title.py:68 | `replace` of a pattern that does not occur changes nothing. |
| Text.ReplaceAllLeading | title.py:68 | A leading occurrence is replaced and the scan resumes after it. |
| Text.Join | title.py:113 | Joining no parts gives "", one part gives that part, and several parts start with the first part followed by the separator. The full layout is stated by the next three lemmas. |
| Text.JoinFront | title.py:113 | A join starts with its first part, followed by the separator when more parts come. |
| Text.JoinParts | title.py:113 | Every part stands in the join at its offset: the lengths of the earlier parts plus one separator for each. |
| Text.JoinSeparators | title.py:113 | A separator follows every part but the last. |
| Text.JoinLength | title.py:113 | The join ends with its last part: its length is the last part's offset plus that part's length. |
| Text.JoinContains | title.py:113 | Every part occurs in the join. |
| Text.JoinPresentForm | title.py:112-113 | Filtering and joining a non-empty head and three strings keeps them in order: the head, then each non-empty string after the separator. Empty strings leave no trace. |
| Text.JoinTrimmed | title.py:113 | Joining non-empty trimmed parts gives a non-empty trimmed string that starts with the first part. |
| Text.Present | title.py:94 | `filter(None, ...)` keeps every present, non-empty string of the input and nothing else, and is no longer than the input. A truthy first element comes first. Nothing is kept when no input is truthy. |
| Text.PresentSameTruth | title.py:94 | Two pairs with the same truth values and the same truthy strings filter to the same list. |
| Title.SkipSkuChars | title.py:34 | The longest run of SKU characters from `i`. |
| Title.SkipSpaces | title.py:34 | The longest run of whitespace from `i`. |
| Title.SkuMatchEnd | title.py:34 | The match of the SKU pattern is empty exactly when the title does not start with a SKU character. It ends at the end of the title or before a non-space character, and covers only SKU characters, whitespace and dashes. |
| Title.SkuMatchParts | title.py:34 | The match is, in order, the whole leading SKU run, all the whitespace after it, one dash if one comes next, and all the whitespace after that. |
| Title.StripSkuPrefix | title.py:34 | The result is a suffix of the raw title. A title that does not start with a SKU character is unchanged. Otherwise the result is strictly shorter, does not start with whitespace, and only SKU characters, whitespace and dashes were removed. |
| Title.StripSkuPrefixParts | title.py:34 | What is removed is exactly the greedy match: the SKU run, whitespace, at most one dash, whitespace. The result is the rest of the title. |
| Title.Claim | title.py:38-43 | `add_term` on a value: the term comes back exactly when its lower-case form is not yet used. The used set afterwards is the old one plus that form. |
| Title.ClaimAll | title.py:38-43 | Claiming terms in turn keeps at most as many terms as offered, each one of them, and the used set only grows. |
| Title.UsedTerms.constructor | title.py:36 | The used set starts empty. |
| Title.UsedTerms.Add | title.py:38-43 | `add_term`: the term comes back exactly when its lower-case form was not used yet, otherwise None. The used set grows by that lower-case form and by nothing else. |
| Title.UsedTerms.Insert | title.py:73 | Marking the shape as used adds exactly its lower-case form. |
| Title.ClaimAllUsed | title.py:38-43 | Claiming a list of terms grows the used set by exactly their lower-case forms. |
| Title.ClaimAllOrder | title.py:38-43 | The terms kept are a subsequence of the terms offered. |
| Title.ClaimAllKept | title.py:38-43 | None of the terms kept is empty or was used before, and no two are equal ignoring case. |
| Title.ClaimAllComplete | title.py:38-43 | Every non-empty term offered is accounted for: its lower-case form was used before, or a kept term has the same lower-case form. |
| Title.ClaimAllFresh | title.py:38-43 | Terms that are non-empty, unused and pairwise different ignoring case are all kept, in order. |
| Title.StyleTermsAreWords | title.py:50 | Every style word is non-empty, in small letters and trimmed, with at most 9 characters. |
| Title.ShapeTermsAreWords | title.py:70 | Every shape word is non-empty, in small letters and trimmed, with at most 6 characters. |
| Title.ColoursAreWords | title.py:66 | Every colour word is non-empty, in small letters and trimmed. |
| Title.StyleFrom | title.py:53-58 | A tag's style is the first vocabulary entry the tag contains: that entry occurs in the tag and no earlier one does. There is none exactly when the tag contains no entry. |
| Title.StyleOf | title.py:53-58 | A tag's style is a vocabulary word the tag contains. There is none exactly when the tag contains no vocabulary word. |
| Title.Picks | title.py:52-58 | Each tag contributes at most one pick, and every pick is the capitalized style of some tag. |
| Title.PickFacts | title.py:55 | A capitalized style word is non-empty and trimmed, and lower-casing it gives the word back. |
| Title.PicksWords | title.py:52-58 | Every pick is a capitalized vocabulary word, non-empty and trimmed. |
| Title.PicksComplete | title.py:52-58 | Every tag's style is among the picks. |
| Title.AddStyleOf | title.py:53-58 | The inner loop with its `break`: a tag without a style claims nothing and changes nothing. Otherwise exactly the capitalized first matching style is claimed. |
| Title.AddStyles | title.py:51-57 | The outer loop leaves the styles and used set of claiming each tag's pick in tag order. |
| Title.StyleClaimUsed | title.py:46-58 | The base is always claimed: "Women's Ring Set" for a set, otherwise "Women's Ring". After the styles, the used set is the lower-cased base plus the lower-cased picks, all of them style words. The base is neither a style nor a shape word. |
| Title.BaseOutsideVocabulary | title.py:47 | Neither lower-cased base is a style or a shape word. |
| Title.Firsts | title.py:51-58 | The reference for the style loop: the values given along a list, each kept where it first appears. It is never longer than the list. |
| Title.FirstsSound | title.py:51-58 | Every value kept is given by some element. |
| Title.FirstsComplete | title.py:51-58 | Every value some element gives is kept. |
| Title.FirstsDistinct | title.py:51-58 | No value is kept twice. |
| Title.FirstsOrder | title.py:51-58 | Values are kept in order of first appearance: for any two kept values, some element giving the earlier one comes before every element giving the later one. |
| Title.StylesMembers | title.py:52-58 | The distinct styles of the tags are exactly the picks, as a set. |
| Title.PickClaimed | title.py:38-43 | Against a used set with no style word, a pick's lower-case form has been used by the earlier picks exactly when the pick is one of them. |
| Title.LastPick | title.py:52-58 | The last tag adds its capitalized style to the picks when it has one, and nothing otherwise. That pick is a capitalized style word, non-empty. |
| Title.ClaimPickStep | title.py:38-58 | Claiming one more pick keeps it exactly when it is not among the styles kept so far. |
| Title.ClaimPicks | title.py:51-58 | Claiming the picks against a used set with no style word keeps exactly the distinct styles of the tags, each where a tag first gives it. |
| Title.PlanStyles | title.py:50-59 | The styles keep tag order, no two are equal ignoring case, and every tag's style is present. They are exactly the distinct styles of the tags in order of first appearance. Each is the capitalized style of some tag, and for any two, a tag giving the earlier one comes before every tag giving the later one. |
| Title.StyleSectionTrimmed | title.py:59 | The style section is empty or has no surrounding whitespace. |
| Title.StyleClaimLowered | title.py:52-58 | After the styles, a shape word is used only if a kept style has it as its lower-case form, and every kept style is used. |
| Title.FirstWhere | title.py:70-71 | What `next(...)` finds is a tag from the starting index on that passes the test. |
| Title.FirstWhereFirst | title.py:70-71 | `next(...)`: the tag found satisfies the test and no earlier tag does. There is none exactly when no tag does. |
| Title.ShapeFrom | title.py:70-71 | The shape found is a tag that is a shape word and whose capitalized lower-case form is not used. |
| Title.ShapeFromFirst | title.py:70-71 | The shape found is an unclaimed shape tag and no earlier tag is one. There is none exactly when no tag is. |
| Title.TakenShape | title.py:70-71 | Against the used set the styles leave, a tag is blocked as a shape exactly when it is no shape word or a kept style has it as its lower-case form. |
| Title.ShapeAfterStyles | title.py:70-74 | Against the used set the styles leave, the shape is a tag exactly equal to a shape word that no kept style has taken. It is the first such tag. There is none exactly when every shape tag has been taken by a style. |
| Title.PlanShape | title.py:70-74 | The shape is one of the tags and a shape word, differs from every kept style ignoring case, and is the first tag that is a shape word not taken by a style. There is no shape exactly when every tag that is a shape word has been taken by a style. |
| Title.StyleBlocksShape | title.py:52-74 | A tag whose style is a word (such as "heart") rules out that word as the shape. |
| Title.ColourAt | title.py:66 | A colour found at an index is one of the words searched for and occurs at that index. |
| Title.ColourFrom | title.py:66 | A colour found from an index on is one of the words searched for and occurs in the string. |
| Title.FindColour | title.py:66 | A colour found is a colour word that occurs in the lower-cased title. |
| Title.ColourFromFirst | title.py:66 | The colour search returns the word found at the smallest index where any colour word starts. There is none exactly when none starts anywhere. |
| Title.ColourAtFacts | title.py:66 | At one index, a colour word is found exactly when one occurs there, and the word found occurs there. |
| Title.FindColourNone | title.py:66-67 | A colour is found exactly when some colour word occurs in the lower-cased title, and what is found is a colour word. |
| Title.ReplaceClear | title.py:68 | The colour replaces "Clear" in the default stone and leaves "Simulated Crystal" unchanged. |
| Title.StoneSection | title.py:62-74 | With a shape, the stone starts with the capitalized shape and a space. |
| Title.StoneForm | title.py:62-74 | The stone is `[Shape ]<Colour or Clear> Cubic Zirconia`, or `[Shape ]Simulated Crystal` when the title names a simulated crystal. |
| Title.StoneSectionTrimmed | title.py:62-74 | The stone section is never empty and has no surrounding whitespace. |
| Title.AddStone | title.py:62-74 | The stone built step by step is the stone section for the first unclaimed shape tag. That shape, if any, is added to the used set and nothing else is. |
| Title.Plating | title.py:77-85 | At most one plating label, by priority IP Gold > IP Rose Gold > IP Black > rhodium (in the title or tags). Each label is chosen exactly when its condition holds and no earlier one does. |
| Title.Material | title.py:87-91 | At most one material, by priority Stainless Steel > Brass. Each is chosen exactly when its condition holds and the earlier one does not. |
| Title.UsedAfterShapeEarly | title.py:46-74 | Before the metal stage, the used set holds only the bases, style words and shape words. |
| Title.EarlyUsed | title.py:46-74 | A used set made of a base, style words and at most one capitalized shape stays within that vocabulary. |
| Title.ClaimMaterial | title.py:93 | A material offered after the shape is never blocked. |
| Title.MaterialClaimKept | title.py:93 | The material found always survives its claim. |
| Title.ClaimPlating | title.py:93 | A plating offered after the material is never blocked. |
| Title.PlatingClaimKept | title.py:93 | The plating found always survives its claim. |
| Title.PlanMetal | title.py:93-94 | The metal section is the material and plating that were found, joined with a space, empty ones dropped. |
| Title.MetalSectionTrimmed | title.py:94 | The metal section is empty or has no surrounding whitespace. |
| Title.AddMetal | title.py:93-94 | Claims the material, then the plating, and joins the truthy results. The used set is the one those two claims leave. |
| Title.Offer | title.py:99-109 | Claims a descriptor and appends it only when the claim is truthy. |
| Title.AddDescriptors | title.py:97-109 | The descriptors and used set are those of claiming "2 Pcs" (sets only), "High Polished" (when named) and "Gift", in that order. |
| Title.ClaimDescriptors | title.py:97-109 | Descriptors offered after the metal are never blocked. |
| Title.Candidates | title.py:97-109 | The candidates end with "Gift". "2 Pcs" is among them exactly for a set, and "High Polished" exactly when the lower-cased title names it. |
| Title.CandidatesOrder | title.py:97-109 | The candidates follow the order "2 Pcs", "High Polished", "Gift", and none comes twice. |
| Title.OfferedOrder | title.py:97-109 | An optional "2 Pcs", then an optional "High Polished", then "Gift" is a subsequence of that fixed order. |
| Title.OfferedDistinct | title.py:97-109 | Such a list repeats nothing. |
| Title.PlanDescriptors | title.py:97-109 | The descriptors are exactly the candidates: "2 Pcs" for a set, "High Polished" when the title names it, then "Gift". |
| Title.CandidatesTrimmed | title.py:99-107 | Every descriptor is a non-empty trimmed word. |
| Title.Plan | title.py:45-109 | The base is always present: "Women's Ring Set" when the tag "ring sets" is present or "set" occurs in the lower-cased title, otherwise "Women's Ring". The stone section is built around the shape chosen. |
| Title.MandatoryForm | title.py:111-113 | The mandatory part is the base, then the space-joined styles after ", " when there are any, then ", " and the stone, then the metal after ", " when it is non-empty. |
| Title.MandatoryStyles | title.py:111-113 | Every planned style occurs in the mandatory part. |
| Title.SectionsTrimmed | title.py:112-113 | Joining a non-empty trimmed head and three sections, each empty or trimmed, gives a trimmed string led by the head. |
| Title.DraftTrimmed | title.py:112-113 | A draft with a present base and trimmed sections has a trimmed mandatory part that starts with the base. |
| Title.MandatoryTrimmed | title.py:112-113 | The mandatory part is non-empty, has no surrounding whitespace and starts with the base. |
| Title.AppendWithin | title.py:115-117 | The descriptor loop never shortens the mandatory part: it is a prefix of the result. The result is no longer than the mandatory part or the budget, whichever is more. |
| Title.AppendWithinForm | title.py:115-117 | The result is the head followed by some of the descriptors, in their order, each after ", ". |
| Title.AppendWithinMaximal | title.py:115-117 | No descriptor is left out that would still fit: if adding ", " and the descriptor to the final result stays within the budget, it is already in the result. |
| Title.AppendWithinTrimmed | title.py:115-117 | Appending trimmed descriptors to a trimmed head keeps it trimmed. |
| Title.AppendWithinSnoc | title.py:115-117 | Running the loop over one more descriptor is the result so far, followed by ", " and that descriptor exactly when the result so far plus those stays within the budget, and otherwise unchanged. |
| Title.AppendWithinGreedy | title.py:115-117 | First fit in order: from the head, each descriptor in turn is appended after ", " exactly when that keeps the length within the budget. The loop's result is the value after the last descriptor. |
| Title.AppendWithinOver | title.py:115-117 | A mandatory part already at the budget gets no descriptor. |
| Title.AppendWithinFinal | title.py:115-119 | After the descriptor loop the final strip changes nothing. Base and mandatory part stay prefixes and the length bound holds. |
| Title.FitDescriptors | title.py:115-117 | The imperative descriptor loop computes `AppendWithin` with budget 75, keeps the mandatory part as a prefix, and respects the length bound. |
| Title.Title | title.py:33-119 | The title has no surrounding whitespace. |
| Title.TitleDescriptors | title.py:111-119 | After the mandatory part the title lists some of the planned descriptors, in planned order, each after ", ". None is left out that would still fit within 75 characters. |
| Title.TitleFirstFit | title.py:111-119 | The title is the mandatory part with the planned descriptors tried in planned order. Each is appended after ", " exactly when the title so far plus it stays within 75 characters, and is skipped otherwise. |
| Title.TitleStructure | title.py:111-119 | The title is the mandatory part with the descriptors that fit, unchanged by the strip. It starts with the mandatory part, and so with the base. Its length is at most max(mandatory length, 75). |
| Title.TransformTitle | title.py:33-119 | `transform_title` equals `Title(raw, tags)`, starts with the mandatory part, and is no longer than that part or 75 characters, whichever is more. |

## Left out

- `extract_product_info` (title.py:10-31) is not part of this model: it fetches a page over HTTP, parses its HTML and writes debug output.
- The Streamlit user interface (title.py:121 onwards) is not part of this model: it is I/O and session state.
- Case mapping and whitespace are ASCII only. `lower`, `capitalize` and `strip` on other characters, and the regex classes `\s` and `\d` on them, are not modelled. Such characters are left unchanged and "é" in "pavé" is an ordinary character.
- The three regular expressions (title.py:5, 34, 66) are replaced by explicit predicates and searches with the same matches. The regex engine itself is not modelled.
- The SKU-stripped title at title.py:34 is assigned but never read, so the composer does not depend on it. `TransformTitle` computes it and discards it, as the source does.
- Title.TitleStructure: the length bound is max(mandatory length, 75) rather than 75, because the source never shortens the mandatory part and so can exceed 75 characters.
- Title.AppendWithin: same bound, for the same reason.
- Behaviour that a fuller title builder might have is absent from this code, and so from the model:
  - the budget is 75, not 80;
  - there is no "CZ" abbreviation rescue;
  - there is no "no stone" or epoxy handling;
  - there is no "in <colour>" capture;
  - at most one plating label is used (no "A & B-Plated" form);
  - the audience is always "Women";
  - accents are not normalised.
