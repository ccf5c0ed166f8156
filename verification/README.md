# forgithub core, modelled in Dafny

forgithub serves a catalogue of tools for a GitHub repository. The catalogue
is a markdown README. The worker turns it into a tree of sections (`mdToJson`).
The tool categories are the child sections of the root's first section. Its
key is the root's first title, which is the first heading's title whatever its
depth. Its section is the one stored last under that title: a later heading
that is stored in the root under the same title replaces the earlier section
but keeps the key's position. Its children are the headings stored under it,
which need not be exactly one level deeper: after `# a`, a `### b` is stored
directly under a. The worker extracts
the markdown links of each category as tool endpoints and orders starred tools
first. For a request path `/owner/repo[.ext]`, the JSON and YAML tool list
appends that path, without its leading `/` and without its extension, to every
tool URL. The HTML tool cards append the path without its leading `/` but
with any extension left in place (main.ts:44); the HTML rendering is not
part of this model.

This project models that core:

- `wrappers.dfy`: `Option` and `Result`.
- `text.dfy`: the JavaScript string operations the core relies on, each with
  its properties:
  - `trim` over the ECMAScript white-space and line-terminator characters;
  - `replace(/\r\n/g, "\n")`;
  - `replace(/^\n+|\n+$/g, "")`;
  - `split` on one character;
  - `join`;
  - `startsWith`, `endsWith` and `includes`.
- `normalize.dfy`: `normalizeContent`, where `split(/\n+/)` is modelled as
  splitting on maximal runs of line feeds.
- `section_tree.dfy`: the parser state and `handleHeader`, `handleContent` and
  the token fold of `mdToJson`.
  - The source mutates section objects that are shared between the stack and
    the tree. The model keeps the open sections as a stack of frames (title and
    section value) and writes a frame back into its parent when it is popped.
  - `View` (closing every frame) is exactly the tree the source's root object
    holds at that moment.
  - `MdToJson` is the imperative fold over the token list. The markdown lexer
    is a parameter.
- `links.dfy`: the `exec` loop of `parseUrlsFromReadme`.
  - The regular expression `\[([^\]]+)\]\(([^)]+)\)` is characterised
    positionally.
  - The model proves that the match is unique at a position, that `exec` finds
    the leftmost match, and that successive matches do not overlap.
  - `new URL` is a parameter that returns the protocol and serialisation, or
    nothing where it throws.
- `catalog.dfy`:
  - `getCategoryDescription`;
  - the star flags and the stable star sort of `renderCategory`;
  - `getSections`;
  - the owner/repo, title, extension and path-suffix arithmetic of `fetch`;
  - the flattened JSON list.

Section titles are kept in insertion order. Assigning an existing title again
keeps that title's position, as assignment to an existing JavaScript property
does.

Where the code behaves in ways a reader might not expect, the model follows
the code:

- A heading more than one level below the current depth opens no intermediate
  levels (`SkippedLevelGoesToRoot`). A later shallower heading can then ask for
  more levels than the stack holds. The source then indexes `undefined` and
  throws; the model returns `Failure(NoParent(title))`
  (`SkippedLevelThenTopFails`).
- `normalizeContent` is not idempotent in general. A lone carriage return can
  form a new CRLF pair after a first pass (`LoneCRNotIdempotent`). A
  whitespace-only line yields an empty paragraph, which a second pass merges
  (`BlankLineGivesEmptyParagraph`, `EmptyParagraphMerged`). The idempotence
  lemmas state the conditions under which it holds.
- A heading with a title its parent already holds replaces that section and
  keeps its position among the keys. In `[# a, ## b, # a]`, b is lost and the
  root's first section has no children, so there are no categories
  (`RepeatedTitleReplaces`).

## Model

| member | source | states |
|---|---|---|
| Text.Trim | mdToJson.ts:63 | the result neither starts nor ends with white space or a line terminator |
| Text.TrimRemovesOnlyEdges | mdToJson.ts:63 | trim removes only white space, and only at the two ends: the result is a slice whose removed prefix and suffix are all white space |
| Text.TrimKeepsEnds | mdToJson.ts:74 | a non-space first character, or last character, survives trimming |
| Text.TrimOfTrimmed | mdToJson.ts:74 | trimming a trimmed text changes nothing |
| Text.TrimKeepsAbsent | mdToJson.ts:63 | a character absent from the input is absent from the trimmed text |
| Text.Strip | mdToJson.ts:59 | after removing leading and trailing line-feed runs, the text neither starts nor ends with a line feed |
| Text.StripRemovesOnlyEdges | mdToJson.ts:59 | only line feeds at the two ends are removed; the result is a slice of the input |
| Text.StripOfStripped | mdToJson.ts:59 | stripping a stripped text changes nothing |
| Text.ReplaceCRLF | mdToJson.ts:55 | replacing CRLF pairs with LF never lengthens the text |
| Text.ReplaceCRLFNoPair | mdToJson.ts:55 | a text without a CRLF pair is unchanged |
| Text.ReplaceCRLFConcat | mdToJson.ts:108 | replacement distributes over concatenation unless the join point falls inside a CRLF pair |
| Text.ReplaceCRLFNoNewline | mdToJson.ts:55 | a text without line feeds is unchanged |
| Text.ReplaceCRLFNoCR | mdToJson.ts:55 | a text without carriage returns is unchanged |
| Text.ReplaceCRLFSplice | mdToJson.ts:55 | a CRLF pair between two texts becomes a single LF between their replacements |
| Text.SplitOnPieces | main.ts:304 | no piece of a split contains the separator, and there is more than one piece exactly when the separator occurs |
| Text.JoinSplitOn | main.ts:312 | joining the pieces with the separator gives back the input |
| Text.SplitOnLast | main.ts:312 | without the separator the split is the input alone; otherwise the input is the join of all pieces but the last, then the separator, then the last piece |
| Text.ContainsAt | mdToJson.ts:66 | `includes` holds exactly when the searched text starts at some position of the text, in both directions |
| Text.JoinEnds | mdToJson.ts:75 | a join starts with its first piece and ends with its last |
| Normalize.SplitRunsPieces | mdToJson.ts:73 | no piece of `split(/\n+/)` contains a line feed; a text without a line feed is one piece, and a text with one gives several |
| Normalize.SplitRunsJoin | mdToJson.ts:73 | splitting non-empty pieces without line feeds, joined by a line-feed run, gives the pieces back |
| Normalize.SplitRunsFirst | mdToJson.ts:73 | the first piece is a prefix of the input that ends at the first line feed or at the end |
| Normalize.SplitRunsLast | mdToJson.ts:73 | the input ends with the last piece; when the input has a line feed, the last piece directly follows one |
| Normalize.SplitRunsLastEmpty | mdToJson.ts:73 | the last piece is empty only when the input is empty or ends with a line feed |
| Normalize.SplitRunsRun | mdToJson.ts:73 | a leading line-feed run gives an empty first piece followed by the pieces of the rest |
| Normalize.SplitRunsCons | mdToJson.ts:73 | a piece followed by a line-feed run is the first piece, followed by the pieces of the rest |
| Normalize.NormalizeCode | mdToJson.ts:55-60 | a code block loses only its leading and trailing line-feed runs after CRLF replacement; the result is a slice that neither starts nor ends with a line feed |
| Normalize.NormalizeTrimmed | mdToJson.ts:63-69 | for non-code blocks the result has no white space at either end; a text containing "\n- " is returned as the trimmed text |
| Normalize.ParagraphsTrimmed | mdToJson.ts:72-75 | for a trimmed text, the paragraph output has no white space at either end |
| Normalize.ParagraphsSeparated | mdToJson.ts:72-75 | for text without whitespace-only lines, the output splits into the trimmed input pieces and is those pieces joined with exactly one blank line |
| Normalize.NormalizeParagraphsIdempotent | mdToJson.ts:53-76 | for paragraph text (not code, no "\n- ") whose trimmed form has no whitespace-only line, a second pass changes nothing |
| Normalize.NormalizeCodeIdempotent | mdToJson.ts:55-60 | a second pass over normalized code changes nothing when the result holds no CRLF pair |
| Normalize.NormalizeListIdempotent | mdToJson.ts:63-69 | a second pass over normalized list text changes nothing when the trimmed text holds no CRLF pair |
| Normalize.TrimBlank | mdToJson.ts:74 | a whitespace-only paragraph trims to the empty string |
| Normalize.BlankLineGivesEmptyParagraph | mdToJson.ts:72-75 | a whitespace-only line between two paragraphs yields an empty paragraph, leaving four line feeds between them |
| Normalize.EmptyParagraphMerged | mdToJson.ts:72-75 | a second pass merges that empty paragraph, so normalization is not idempotent there |
| Normalize.LoneCRNotIdempotent | mdToJson.ts:55-59 | "x\r\r\ny" normalizes to "x\r\ny", and that normalizes again to "x\ny" |
| SectionTree.PutLookup | mdToJson.ts:44 | after `parent[title] = child` the title looks up to that child, and every other title is unchanged |
| SectionTree.PutKeepsOthers | mdToJson.ts:44 | a store changes the lookup of no title but its own |
| SectionTree.PutKeys | mdToJson.ts:44 | a new title is appended to the keys; an existing title keeps its place |
| SectionTree.PutDistinct | mdToJson.ts:44 | assigning a title keeps the titles distinct |
| SectionTree.PopNBelow | mdToJson.ts:36-40 | popping levels keeps the frames below the new top unchanged, and the new top keeps its title and content |
| SectionTree.PopNLinked | mdToJson.ts:36-40 | after popping, each frame is still registered under its title in the frame below |
| SectionTree.PopNWellFormed | mdToJson.ts:36-40 | popping keeps every section's titles distinct |
| SectionTree.PopNKeepsTree | mdToJson.ts:36-40 | `slice(0, -levelsUp)` does not change the tree the root holds |
| SectionTree.ViewWellFormed | mdToJson.ts:119 | the tree the root holds has distinct titles at every level |
| SectionTree.HandleHeader | mdToJson.ts:32-52 | fails exactly when more levels are popped than there are frames below the top, with NoParent of the title; the source throws there. Otherwise it pops `currentDepth - depth + 1` levels when depth <= currentDepth. In the remaining top it stores an empty section under the title and pushes that section. Every other title of that parent keeps what it held once the closed sections were stored back. The frames below are unchanged. It sets the depth and clears the content list |
| SectionTree.OpenLinked | mdToJson.ts:42-44 | the pushed frame is registered under its title in its parent |
| SectionTree.OpenWellFormed | mdToJson.ts:42-44 | registering a section keeps titles distinct |
| SectionTree.HeaderKeepsValid | mdToJson.ts:32-52 | a successful heading keeps the parser invariant: the stack fits the depth, the frames are linked, titles are distinct, and the content list matches the top content |
| SectionTree.HeaderKeyOrder | mdToJson.ts:42-44 | the parent's titles are unchanged when the title was present; otherwise the title is appended |
| SectionTree.HandleContent | mdToJson.ts:77-105 | a token without raw text, or one that normalizes to empty, leaves the state unchanged. Otherwise only the top section's content changes: it becomes the block, or the old content plus the separator plus the block. The block is appended to the content list |
| SectionTree.ContentKeepsValid | mdToJson.ts:77-105 | a content block keeps the parser invariant |
| SectionTree.Step | mdToJson.ts:111-117 | only a heading can fail; a successful step keeps the invariant |
| SectionTree.Fold | mdToJson.ts:111-117 | the reduce keeps the invariant; a failure is NoParent of some heading token's title |
| SectionTree.Build | mdToJson.ts:107-120 | a successfully built tree has distinct titles at every level; a failure is NoParent of some heading token's title |
| SectionTree.MdToJson | mdToJson.ts:107-120 | the loop over the lexer's tokens of the CRLF-normalized markdown returns the tree `Build` specifies |
| SectionTree.WellNestedFold | mdToJson.ts:36-40 | tokens whose headings never go more than one level deeper than the current depth never fail |
| SectionTree.WellNestedBuilds | mdToJson.ts:36-44 | a well-nested document always builds |
| SectionTree.NoHeadingNoSections | mdToJson.ts:111-119 | a document without headings builds a root without sections |
| SectionTree.InitialValid | mdToJson.ts:23-30 | the initial state satisfies the parser invariant |
| SectionTree.FirstHeading | mdToJson.ts:36-51 | a first heading of depth 1 opens one frame under the root |
| SectionTree.BlockAfterHeading | mdToJson.ts:77-98 | the first block after a heading becomes that section's content |
| SectionTree.HeadingThenBlock | mdToJson.ts:77-119 | "# a" followed by a block gives a root with one section a that holds the block |
| SectionTree.SkipDown | mdToJson.ts:36-51 | a depth-3 heading under a depth-1 heading pushes one frame, not two |
| SectionTree.SkipPops | mdToJson.ts:36-40 | a depth-2 heading after that pops two frames |
| SectionTree.SkipBackUp | mdToJson.ts:36-44 | the depth-2 heading is then registered under the root |
| SectionTree.SkippedLevelGoesToRoot | mdToJson.ts:36-44 | [# a, ### b, ## c] gives root sections a (holding b) and c, both at the top level |
| SectionTree.SkippedLevelThenTopFails | mdToJson.ts:36-44 | [# a, ### b, # c] fails with NoParent(c), where the source throws |
| SectionTree.NestOne | mdToJson.ts:36-51 | a depth-2 heading after a depth-1 heading is stored in it and pushed |
| SectionTree.NextSibling | mdToJson.ts:36-51 | a second depth-2 heading closes the first and is stored after it, in the same parent |
| SectionTree.Siblings | mdToJson.ts:32-119 | [# a, ## b, ## c] gives a root whose section a has children b and c, in that order, neither nested in the other |
| SectionTree.CloseNested | mdToJson.ts:39 | dropping both frames of a > b leaves the root alone, holding a with b inside it |
| SectionTree.ReturnToTitle | mdToJson.ts:36-48 | from a stack a > b at depth 2, a depth-1 heading titled a pops both frames and stores a fresh, empty section under the root's existing key a |
| SectionTree.RepeatedTitleFold | mdToJson.ts:32-52 | the fold over [# a, ## b, # a] ends with only a fresh, empty a open under the root |
| SectionTree.RepeatedTitleReplaces | mdToJson.ts:44 | in [# a, ## b, # a] the second a replaces the first one's section, with b in it, at the same key position: the root is just a, empty |
| SectionTree.EmptyDocument | mdToJson.ts:111-119 | no tokens give the empty root section |
| SectionTree.OpenAvoids | mdToJson.ts:42-44 | registering a title other than `_content` keeps `_content` out of every title |
| SectionTree.FoldAvoids | mdToJson.ts:111-117 | the fold keeps `_content` out of every title when no heading is titled `_content` |
| SectionTree.ReservedKeyUnused | mdToJson.ts:4-7 | when no heading is titled `_content`, no section of the built tree has a child titled `_content`, so the content field and the children never collide |
| Links.MatchAt | main.ts:93 | a match at p starts at p and ends within the text |
| Links.MatchAtSound | main.ts:93 | a match found at p has the pattern's shape: `[`, a non-empty text without `]`, `](`, a non-empty target without `)`, `)` |
| Links.MatchAtComplete | main.ts:93 | any such link at p is exactly the match found there, so the match at a position is unique |
| Links.Exec | main.ts:97 | `exec` from lastIndex returns a match starting at or after lastIndex |
| Links.ExecLeftmost | main.ts:93-97 | the match `exec` returns is a link and no link starts before it; no result means no link starts at or after lastIndex |
| Links.ScanOrdered | main.ts:93-98 | the loop's matches are links, in increasing order, without overlap |
| Links.ScanCovers | main.ts:93-97 | the loop misses no link: every position from the start on where a link begins lies inside a reported match |
| Links.WithTrailingSlash | main.ts:104-106 | the URL ends with "/" and starts with the serialised URL; a slash is appended only when missing |
| Links.EndpointsAppend | main.ts:97-113 | the endpoints of consecutive matches are the endpoints of each part, in order |
| Links.EndpointsFromLinks | main.ts:99-112 | there are no more endpoints than matches, every URL ends with "/", and every endpoint comes from some match |
| Links.WebLinksKept | main.ts:99-112 | every match with a web URL contributes its endpoint; an invalid URL does not stop the loop |
| Links.ParseUrlsFromReadme | main.ts:91-116 | the `exec` loop returns the endpoints of all matches of the text, in order |
| Catalog.Find | main.ts:124-135 | looking up a name finds its listed value, or nothing when it is not listed |
| Catalog.CategoryDescription | main.ts:123-136 | the description is never empty; a listed category gets its own text; the default is returned exactly for unlisted names |
| Catalog.CompareStarsConsistent | main.ts:160-163 | the comparator is consistent: swapping its arguments negates it, and "not after" is transitive, so the sort is well defined |
| Catalog.SortRespectsComparator | main.ts:160-163 | no two sorted tools compare as out of order under the source comparator |
| Catalog.SortIsPartition | main.ts:160-163 | the stable sort equals the starred tools followed by the unstarred tools, each in original order |
| Catalog.PartitionPermutes | main.ts:160-163 | the two parts together are a permutation of the input |
| Catalog.SortByStarsSorted | main.ts:160-163 | the sort is a permutation, and no starred tool follows an unstarred one |
| Catalog.RenderOrder | main.ts:151-163 | the tools are rendered starred first, in original order within each group, as a permutation of the endpoints |
| Catalog.GetSections | main.ts:281-294 | the result is a success exactly when the tree builds and the root has a section. A failed build is BadReadme with its cause. A root without sections is NoFirstHeading: `firstH1` is then undefined, and `Object.entries` of the undefined value throws. On success the categories are those of the first section's children, each with its title, its content and the endpoints found in that content |
| Catalog.CategoriesDistinct | main.ts:285-292 | the category names are distinct |
| Catalog.OwnerRepo | main.ts:304-306 | owner and repo are present only when both are non-empty, and neither contains "/" |
| Catalog.OwnerRepoOfPath | main.ts:304 | "/owner/repo" followed by nothing or by a "/..." tail gives exactly that owner and repo |
| Catalog.PageTitleOfRepoPath | main.ts:304-308 | a path "/owner/repo", alone or followed by "/...", gets the title "Tools For GitHub Repo: owner/repo" |
| Catalog.PageTitleWithoutRepo | main.ts:304-308 | a one-segment path, with or without a trailing slash, gets the generic title |
| Catalog.LastSegmentOfPath | main.ts:312 | the last segment has no "/" and ends the path; it directly follows the last "/", or is the whole path when there is none |
| Catalog.LastChunkOfSegment | main.ts:312-313 | the last "."-chunk has no "." and ends the segment |
| Catalog.ExtensionOfPath | main.ts:312-313 | there is no extension exactly when the last segment has no "."; otherwise the extension has no "." or "/", and the path ends with "." plus the extension |
| Catalog.CutEnd | main.ts:334 | `slice(0, -n)` drops n characters, or gives "" when n exceeds the length |
| Catalog.ExtensionRemoved | main.ts:313-334 | for a path starting with "/", the suffix followed by "." and the non-empty extension gives back the path without its leading slash |
| Catalog.NoExtensionKept | main.ts:334 | without an extension, or with an empty one (falsy), the whole path after the first character is kept |
| Catalog.ListEntriesFromCategories | main.ts:327-335 | the flattened list has one entry per endpoint. Each entry is some category's endpoint, with the suffix appended and that category's name |
| Catalog.ListEntriesAppend | main.ts:327-329 | flattening distributes over concatenation of categories |
| Catalog.ListAll | main.ts:327-335 | the JSON list has one entry per endpoint, each URL ending with the path suffix |

## Left out

- `marked.lexer` is a parameter (a function from text to tokens). The model
  does not re-implement markdown tokenisation.
- A token's optional fields are folded into the record: a missing `depth` is 0,
  and a missing `text` or `raw` is "". For `depth` and `text` the source does
  the same with `||` (mdToJson.ts:33-34). For `raw` it returns the state
  unchanged when `raw` is falsy (mdToJson.ts:78), and so does the model on "".
- `new URL(...)` is a parameter that gives the protocol and serialisation, or
  `None` where it throws. `encodeURIComponent` is also a parameter.
  `localStorage` (`getStarredItems`) is a map passed in.
- Array.prototype.sort is stable, so the comparator's order is the stable
  partition. The sort is modelled as a stable insertion sort; the engine's
  algorithm is not modelled.
- The ordering of JavaScript object keys is not modelled: integer-like keys are
  listed first in ascending order. Nor are the `__proto__` key and prototype
  keys:
  - a category named "constructor" finds `Object.prototype.constructor` in the
    description table;
  - a heading titled `__proto__` changes the prototype instead of adding a key.
- Catalog.CategoryDescription: stated for the five listed names and every
  other name as plain lookup, not over the prototype-chain names above.
- The `currentSection` field of the parser state is never read and is not
  modelled.
- The `_content` field and a heading titled `_content` share one JavaScript
  object. The model keeps content and children apart. ReservedKeyUnused states
  when the source has no such collision; documents with a `_content` heading
  are not modelled as overwriting the content.
- The HTML rendering is not modelled. This covers `renderToolCard`,
  `renderCategory`'s markup, the page template and its inline script.
- Also not modelled:
  - `getFormat`;
  - the markdown and YAML/JSON responses;
  - `Request`/`Response`;
  - the Open Graph URL;
  - `console.warn` (the skip itself is modelled).
- The README text is an input parameter (`readme`) rather than the bundled
  file.
- Definitions without a contract of their own, specified by the lemmas named
  beside them:
  - Text.StartsWith (mdToJson.ts:91), Text.EndsWith (main.ts:104) and
    Text.Contains (mdToJson.ts:66): StartsWithCons, EndsWithTrans,
    ContainsAt, HandleContent, NormalizeTrimmed, WithTrailingSlash;
  - Normalize.TrimEach (mdToJson.ts:74): ParagraphsTrimmed,
    ParagraphsSeparated;
  - SectionTree.CreateInitialState (mdToJson.ts:23-30): InitialValid,
    EmptyDocument;
  - SectionTree.Put (mdToJson.ts:44): PutLookup, PutKeepsOthers, PutKeys,
    PutDistinct;
  - SectionTree.LevelsUp and SectionTree.PopN (mdToJson.ts:37-39):
    HandleHeader, PopNBelow, PopNLinked, PopNKeepsTree, SkipPops;
  - SectionTree.Open (mdToJson.ts:42-44): OpenLinked, OpenWellFormed,
    HeaderKeyOrder;
  - SectionTree.View (mdToJson.ts:119): ViewWellFormed, PopNKeepsTree;
  - SectionTree.Separator (mdToJson.ts:91-97): HandleContent;
  - Normalize.SplitRuns, Normalize.Paragraphs and Normalize.NormalizeText
    (mdToJson.ts:63-75): the SplitRuns lemmas, ParagraphsTrimmed,
    ParagraphsSeparated;
  - Links.IsLinkAt, Links.Scan, Links.Endpoints, Links.UrlsIn and
    Links.EndpointOf (main.ts:93-113): MatchAtSound, MatchAtComplete,
    ExecLeftmost, ScanOrdered, ScanCovers, EndpointsFromLinks, WebLinksKept,
    EndpointsAppend, ParseUrlsFromReadme;
  - Links.IsWeb (main.ts:101): EndpointsFromLinks, WebLinksKept;
  - Catalog.IsStarred and Catalog.WithStars (main.ts:154-157): RenderOrder;
  - Catalog.CompareStars, Catalog.Insert and Catalog.SortByStars
    (main.ts:160-163): CompareStarsConsistent, SortRespectsComparator,
    SortIsPartition, SortByStarsSorted;
  - Catalog.CategoriesOf (main.ts:286-292): GetSections, CategoriesDistinct;
  - Catalog.DropFirst and Catalog.PageTitle (main.ts:304-308):
    OwnerRepoOfPath, PageTitleOfRepoPath, PageTitleWithoutRepo;
  - Catalog.LastOf, Catalog.LastSegment and Catalog.Extension
    (main.ts:312-313):
    LastSegmentOfPath, ExtensionOfPath;
  - Catalog.PathSuffix (main.ts:334): ExtensionRemoved, NoExtensionKept;
  - Catalog.EntriesOf and Catalog.ListEntries (main.ts:327-335):
    ListEntriesFromCategories, ListEntriesAppend, ListAll.
- Normalize.NormalizeContent: has no contract of its own. Its properties are
  stated in NormalizeCode, NormalizeTrimmed, ParagraphsTrimmed,
  ParagraphsSeparated and the idempotence lemmas.
- Normalize.NormalizeParagraphsIdempotent: idempotence is proved only under
  its condition (no whitespace-only line); the code and list lemmas need no
  CRLF pair in the result. The code does not guarantee idempotence in general; see LoneCRNotIdempotent and
  EmptyParagraphMerged.
