# A verified model of the lemmalab proof checker

This project models the natural-deduction proof checker of lemmalab,
`src/lib/proofchecker/`. The checker has three parts, and each one is
modelled here in the form its source takes.

- The formula AST and its canonicaliser (`ast.ts`).
  - `Ast` holds the six-constructor datatype, `equalsAst` and `keyOf`. It proves that `equalsAst` is datatype equality and that keys are injective on well-named trees. It also shows a collision when names may contain `)`.
  - `Canonical` holds `flatten`, `buildLeftAssoc` and `canonicalizeAst`, each stated as functions and also written as the methods `engine.ts` has. The methods cover the accumulator push, the folding loop and the stable in-place sort of `canon`. Each method is proved equal to its function.
  - `CanonicalProps` proves the following. The chains come out sorted by key, and a permutation of the input. Canonicalisation is idempotent. `And`, `Or` and `Iff` are commutative under `equalsCanonical`, and `And`/`Or` regroup. `Not` and `Imp` keep their order. `equalsCanonical` is an equivalence on present formulas and false on a missing one.
- The tokenizer and parser (`parser.ts`).
  - `Tokens` has `normalize` as the chain of replacements and `tokenize` as its character loop.
  - `TokensProps` proves what these do. `normalize` maps each alias character and strips white space. Tokenizing consumes everything, skips unknown characters and ends in one `eof`. A `v` opens an `or` token only at the start of a token, and `<->` wins over `->`.
  - `Parser` is the recursive-descent parser. It is written as a `Parser` class with a cursor field and a `while` loop per left-folding level, and it is proved against a fuel-free functional grammar.
  - `ParserProps` proves precedence and associativity, that rendering a formula fully bracketed and parsing it back gives the formula, and the error cases: trailing tokens, a missing `)`, and the `?` atom.
- The proof engine (`engine.ts`).
  - `Formulas` holds the string helpers: `normalizeFormula`, the conjunction and quantifier regexes as character-level functions, `replaceVar`, `alphaEqual`, `extractIdentifiers` and `isInstanceOf`, with the loops of `engine.ts` as methods.
  - `Frames` is the subproof-frame tracker. Its stack holds indices into `frames`, because the frame objects of `engine.ts` are shared between the two arrays. `FramesProps` proves that every frame closes inside the proof, and that with non-negative depths every frame is a maximal subproof.
  - `Rules` is the case-insensitive rule-name dispatch, as `engine.ts` writes it, with a corrected chain beside it.
  - `Checks` has one function per rule branch. `ChecksProps` proves what each propositional and quantifier branch accepts, in both directions. For the three subproof rules it proves that a line is accepted exactly when the first frame found holds what the rule needs, and that the textbook instances are accepted.
  - `Engine` states `validateProof` as functions and as the method with its loops. The method includes `parseMemo` as a class whose invariant is that each cached tree is the parse of its key.
  - `EngineProps` proves the following. There is one verdict per line, in order. The rules that read `lineByNo` see only the lines checked before. Negation introduction, indirect proof and conditional introduction use the frames and the line index of the whole proof, so they may cite later lines. A line is accepted exactly when it has a number, a formula and no rule message. The proof is accepted exactly when every line is accepted and the conclusion is non-empty, whatever that conclusion says.
- `Proofs` mirrors the records of `types.ts`. `Wrappers` and `Text` hold `Option`, JavaScript's string order, white space and trimming, and case-insensitive matching.

`undefined` is modelled as `None`. A thrown error is modelled as a `Failed` result, or as a missing parse where `parseAstSafe` catches it. Messages are a `Message` datatype, and `MessageText` gives the exact strings `engine.ts` records.

The engine is modelled as `engine.ts` is written, including the three defects listed under "## Findings": the rule dispatch uses `Rules.ClassifyAsWritten` and both contradiction searches use `Checks.ClashAsWritten`. The corrected `Rules.Classify` and `Checks.Clash` stand beside them, with the intended properties proved, but the engine does not use them.

In a few places, descriptions of this checker say other than what its code does. The model follows the code in each case:
- `normalize` maps only the aliases in src/lib/proofchecker/parser.ts:8-16. It does not map `||`, `=>`, `<=>`, `∀` or `∃`.
- The premises are normalized into `known` and parsed into `knownAst` through the parse memo (src/lib/proofchecker/engine.ts:104-109). Nothing reads either set, so the premises only fill the memo, and by the memo's invariant this changes no result.
- Negation introduction and indirect proof try only the first frame whose assumption matches, open or closed (`frames.find`). A later frame with the same assumption is never tried.
- A forward reference is not rejected as such. In the rules that read `lineByNo` it is simply not found, because `lineByNo` only holds the lines checked before. Negation introduction, indirect proof and conditional introduction look references up in `lineIndexByNo`, which indexes the whole proof, so a line may cite lines after it. For example, a line 1 `!P` by negation introduction citing 3 and 4 is accepted when lines 2 to 4, at depth 1, are `P`, `Q` and `!Q`.

## Model

| member | source | states |
|---|---|---|
| Wrappers.Nth | src/lib/proofchecker/engine.ts:166 | `refs[k]` is present exactly when `k` is within the array, and is then its `k`-th element; past the end it is `undefined` |
| Text.StripSpaces | src/lib/proofchecker/engine.ts:9 | `replace(/\s+/g, "")` leaves no white-space character, keeps only characters of the input, and changes nothing in a string without white space |
| Text.MatchAt | src/lib/proofchecker/engine.ts:10 | an alternation `/p1\|p2/` tries its alternatives in order: the index found is the first alternative that occurs at the position, and none before it does |
| Text.ReplaceAllChars | src/lib/proofchecker/engine.ts:10-16 | every character a global replacement produces comes from the replacement text or from the input, and a character that is itself a one-character pattern never survives |
| Text.ReplaceAllCons | src/lib/proofchecker/parser.ts:11-15 | with one-character patterns, the first character is either kept alone or replaced alone, and the rest is replaced independently |
| Text.ReplaceAllConcat | src/lib/proofchecker/parser.ts:11-15 | with one-character patterns, replacing `x + y` is replacing `x` then `y` |
| Text.ReplaceAllUntouched | src/lib/proofchecker/parser.ts:11-15 | a string none of whose characters is a one-character pattern is left unchanged |
| Text.ReplaceAllNoMatch | src/lib/proofchecker/engine.ts:10-16 | a replacement whose patterns occur nowhere in the string leaves it unchanged |
| Text.NoStartsWith | src/lib/proofchecker/engine.ts:10-16 | a pattern containing a character absent from the string occurs at no position of it |
| Text.Trim | src/lib/proofchecker/engine.ts:149 | `trim()` neither starts nor ends with white space and is no longer than its input |
| Text.TrimStart | src/lib/proofchecker/engine.ts:149 | removing leading white space leaves a suffix of the input that does not start with white space |
| Text.TrimEnd | src/lib/proofchecker/engine.ts:149 | removing trailing white space leaves a prefix of the input that does not end with white space |
| Text.SkipSpaces | src/lib/proofchecker/engine.ts:173 | `\s*` takes exactly the run of white space at the position: everything skipped is white space and the next character is not |
| Text.LexLeTotal | src/lib/proofchecker/ast.ts:127 | JavaScript's string order `<=` relates any two strings one way or the other |
| Text.LexLeAntisymmetric | src/lib/proofchecker/ast.ts:134 | two strings each `<=` the other are equal, so the comparator's 0 means equal keys |
| Text.LexLeTransitive | src/lib/proofchecker/ast.ts:134 | string `<=` is transitive, so the comparator is a consistent order |
| Text.LexLeReflexive | src/lib/proofchecker/ast.ts:127 | every string is `<=` itself |
| Ast.EqualsAst | src/lib/proofchecker/ast.ts:61-76 | `equalsAst` holds exactly when the two trees are equal: same kind and recursively equal fields |
| Ast.NamesBeforeClose | src/lib/proofchecker/ast.ts:82 | two names free of `)`, each followed by `)`, are told apart at the first `)` |
| Ast.KeyPrefixCode | src/lib/proofchecker/ast.ts:79-94 | a well-named tree's key followed by `)` determines both the tree and the text after it |
| Ast.KeyStartsWithTag | src/lib/proofchecker/ast.ts:79-94 | every key is non-empty and its first character tells the node's kind |
| Ast.TagsAgree | src/lib/proofchecker/ast.ts:79-94 | two equal keys, each followed by `)`, belong to nodes of the same kind |
| Ast.KeyOfBinary | src/lib/proofchecker/ast.ts:85-92 | a binary node's key is its tag, the left key closed by `)`, the infix text, the right key closed by `)` |
| Ast.VarPrefixCode | src/lib/proofchecker/ast.ts:82 | the variable case of the prefix-code property |
| Ast.NotPrefixCode | src/lib/proofchecker/ast.ts:84 | the negation case of the prefix-code property |
| Ast.BinaryNodePrefixCode | src/lib/proofchecker/ast.ts:85-92 | the binary cases of the prefix-code property, for two nodes of the same kind |
| Ast.BinaryPrefixCode | src/lib/proofchecker/ast.ts:85-92 | the operands of two binary keys with the same surrounding text are equal, as is what follows |
| Ast.KeyInjective | src/lib/proofchecker/ast.ts:79-94 | `keyOf` is injective on formulas whose variable names contain no `)`, which are all the parser produces |
| Ast.KeyCollision | src/lib/proofchecker/ast.ts:86 | without that condition two different trees share a key: `(x),(v:y ^ z)` and `(x ^ y),(v:z)` |
| Canonical.Join | src/lib/proofchecker/ast.ts:110 | `makeAnd`/`makeOr` build a node of the requested kind with the given operands |
| Canonical.Flatten | src/lib/proofchecker/ast.ts:96-103 | the operands of the maximal chain at the root, none of them of the chain's kind; at least two when the root is of that kind, the formula itself otherwise |
| Canonical.FlattenSmaller | src/lib/proofchecker/ast.ts:96-103 | every operand of a chain is a proper subformula, so canonicalisation's recursion on them terminates |
| Canonical.LeftFold | src/lib/proofchecker/ast.ts:105-113 | folding two or more operands gives a node of the chain's kind |
| Canonical.InsertBy | src/lib/proofchecker/ast.ts:134 | one insertion into a sorted prefix adds exactly one element |
| Canonical.InsertByKey | src/lib/proofchecker/ast.ts:134 | insertion by key adds exactly one element |
| Canonical.SortByKey | src/lib/proofchecker/ast.ts:134 | the sorted list has as many elements as its input |
| Canonical.Canonicalize | src/lib/proofchecker/ast.ts:115-145 | canonicalisation never changes the kind of the root |
| Canonical.CanonicalChain | src/lib/proofchecker/ast.ts:130-143 | canonicalising an And/Or chain gives a node of the same kind |
| Canonical.CanonAll | src/lib/proofchecker/ast.ts:133 | `parts.map(canonicalizeAst)`: same length, each element the canonical form of the corresponding operand |
| Canonical.EqualsCanonical | src/lib/proofchecker/ast.ts:147-152 | `equalsCanonical` holds exactly when both formulas are present and have the same canonical form |
| Canonical.FlattenInto | src/lib/proofchecker/ast.ts:96-103 | `flatten(ast, kind, acc)` appends exactly the chain's operands, in order, to the accumulator |
| Canonical.BuildLeftAssoc | src/lib/proofchecker/ast.ts:105-113 | `buildLeftAssoc` throws exactly on an empty list, and otherwise returns the left fold of the operands |
| Canonical.SortInPlace | src/lib/proofchecker/ast.ts:134 | the array ends up holding the stable key sort of its old contents |
| Canonical.InsertLast | src/lib/proofchecker/ast.ts:134 | one insertion step places `a[i]` into the sorted prefix `a[..i]` and leaves the rest of the array alone |
| Canonical.InsertHere | src/lib/proofchecker/ast.ts:134 | the insertion stops as soon as the element to its left comes first under the comparator |
| Canonical.InsertStep | src/lib/proofchecker/ast.ts:134 | moving the insertion point one place left past an element the comparator does not put first keeps the same result |
| Canonical.CanonicalizeAst | src/lib/proofchecker/ast.ts:115-145 | the imperative `canonicalizeAst` (accumulator, mapped array, in-place sort, fold) computes the canonical form |
| Canonical.CanonicalizeChain | src/lib/proofchecker/ast.ts:130-143 | the And/Or branch of the imperative `canonicalizeAst` computes the canonical chain |
| Canonical.CanonicalizeParts | src/lib/proofchecker/ast.ts:133 | the mapped array is fresh and holds each operand's canonical form |
| CanonicalProps.InsertByKeyPermutes | src/lib/proofchecker/ast.ts:134 | one insertion adds the element and otherwise keeps the same elements |
| CanonicalProps.SortByKeyPermutes | src/lib/proofchecker/ast.ts:134 | sorting is a permutation of its input |
| CanonicalProps.InsertByKeySorted | src/lib/proofchecker/ast.ts:134 | inserting into a key-sorted list keeps it key-sorted |
| CanonicalProps.AppendMax | src/lib/proofchecker/ast.ts:134 | appending an element whose key bounds every key keeps a list sorted |
| CanonicalProps.DropLast | src/lib/proofchecker/ast.ts:134 | dropping the last element keeps a list sorted |
| CanonicalProps.SortByKeySorted | src/lib/proofchecker/ast.ts:134 | the sort's output is ordered by key |
| CanonicalProps.SortByKeyOfSorted | src/lib/proofchecker/ast.ts:134 | the sort is stable: an already sorted list is left as it is |
| CanonicalProps.SortedUnique | src/lib/proofchecker/ast.ts:134 | two key-sorted lists with the same well-named elements are equal, so the sorted order depends only on the elements |
| CanonicalProps.SortedHeads | src/lib/proofchecker/ast.ts:134 | two such lists start with the same element |
| CanonicalProps.DropHead | src/lib/proofchecker/ast.ts:134 | removing the first element takes it out of the multiset and keeps the list sorted |
| CanonicalProps.FlattenLeftFold | src/lib/proofchecker/ast.ts:96-113 | `buildLeftAssoc` inverts `flatten`: flattening a fold of non-chain operands gives back those operands |
| CanonicalProps.FlattenWellNamed | src/lib/proofchecker/ast.ts:96-103 | the operands of a well-named chain are well named |
| CanonicalProps.LeftFoldWellNamed | src/lib/proofchecker/ast.ts:105-113 | folding well-named operands gives a well-named formula |
| CanonicalProps.SortedCanonSource | src/lib/proofchecker/ast.ts:133-134 | every element of the sorted canonical operands is the canonical form of one of the operands |
| CanonicalProps.CanonicalizeWellNamed | src/lib/proofchecker/ast.ts:115-145 | canonicalisation keeps variable names, so it keeps formulas well named |
| CanonicalProps.ChainWellNamed | src/lib/proofchecker/ast.ts:130-143 | the same for the And/Or case |
| CanonicalProps.CanonicalizeIsCanonical | src/lib/proofchecker/ast.ts:115-145 | the output is canonical: every chain a left fold of key-sorted canonical operands, every Iff with the smaller key on the left |
| CanonicalProps.ChainIsCanonical | src/lib/proofchecker/ast.ts:130-143 | the same for the And/Or case |
| CanonicalProps.CanonicalFixpoint | src/lib/proofchecker/ast.ts:115-145 | a canonical formula is its own canonical form |
| CanonicalProps.ChainFixpoint | src/lib/proofchecker/ast.ts:130-143 | the same for the And/Or case |
| CanonicalProps.CanonicalizeIdempotent | src/lib/proofchecker/ast.ts:115-145 | canonicalising twice is canonicalising once |
| CanonicalProps.CanonAllPermutes | src/lib/proofchecker/ast.ts:133 | permuting the operands permutes their canonical forms |
| CanonicalProps.CanonAllSnoc | src/lib/proofchecker/ast.ts:133 | the canonical forms of a list are those of its prefix plus that of its last element |
| CanonicalProps.CanonAllRemoveAt | src/lib/proofchecker/ast.ts:133 | removing one operand removes exactly its canonical form |
| CanonicalProps.ChainPermutation | src/lib/proofchecker/ast.ts:130-143 | two chains of one kind whose well-named operands are the same multiset, in any order and grouping, canonicalise alike |
| CanonicalProps.AndCommutes | src/lib/proofchecker/ast.ts:130-136 | `A^B` and `B^A` are equal under `equalsCanonical` |
| CanonicalProps.OrCommutes | src/lib/proofchecker/ast.ts:137-143 | `AvB` and `BvA` are equal under `equalsCanonical` |
| CanonicalProps.IffCommutes | src/lib/proofchecker/ast.ts:123-129 | `A<->B` and `B<->A` are equal under `equalsCanonical` |
| CanonicalProps.AndRegroups | src/lib/proofchecker/ast.ts:130-136 | `(A^B)^C` and `A^(B^C)` are equal under `equalsCanonical`, whatever the names |
| CanonicalProps.OrRegroups | src/lib/proofchecker/ast.ts:137-143 | `(AvB)vC` and `Av(BvC)` are equal under `equalsCanonical`, whatever the names |
| CanonicalProps.NotImpKeepOrder | src/lib/proofchecker/ast.ts:119-122 | Not and Imp only canonicalise their children, so `A->B` equals `B->A` exactly when A and B canonicalise alike |
| CanonicalProps.EqualsCanonicalLaws | src/lib/proofchecker/ast.ts:147-152 | `equalsCanonical` is false on a missing side, reflexive on a present one, and symmetric |
| CanonicalProps.EqualsCanonicalOfCanonical | src/lib/proofchecker/ast.ts:147-152 | replacing a formula by its canonical form does not change a comparison |
| Tokens.NormalizeIsMap | src/lib/proofchecker/parser.ts:8-16 | the chain of five global replacements after removing white space acts on each character alone: no replacement text holds a character a later stage rewrites |
| Tokens.AliasStagesConcat | src/lib/proofchecker/parser.ts:11-15 | the five replacements distribute over concatenation |
| Tokens.AliasStagesChar | src/lib/proofchecker/parser.ts:11-15 | on one non-space character the replacements give that character's alias text |
| Tokens.ReplaceOne | src/lib/proofchecker/parser.ts:11-15 | one character through one replacement stage is kept unless it is one of that stage's patterns, and then becomes the replacement |
| Tokens.NormalizeClean | src/lib/proofchecker/parser.ts:8-16 | after `normalize` no white space and no alias symbol (`¬ ~ ∧ & ∨ → ↔`) is left |
| Tokens.MapAliasesClean | src/lib/proofchecker/parser.ts:8-16 | the same for the character-by-character reading |
| Tokens.NormalizeWithoutAliases | src/lib/proofchecker/parser.ts:8-16 | a string without alias symbols only loses its white space |
| Tokens.IdentEnd | src/lib/proofchecker/parser.ts:33-34 | the identifier scan stops at the first character that is not in `[a-zA-Z0-9_]`, or at the end |
| Tokens.IdentEndAt | src/lib/proofchecker/parser.ts:33-34 | the scan stops exactly at the first non-word character after a run of word characters |
| Tokens.Scan | src/lib/proofchecker/parser.ts:23-39 | every round of the loop moves forward, so tokenizing terminates |
| Tokens.Lex | src/lib/proofchecker/parser.ts:41 | the token list always ends with `eof` |
| Tokens.LexShape | src/lib/proofchecker/parser.ts:22-42 | `eof` appears only at the end; every identifier token holds an identifier, none beginning with `v` |
| Tokens.Tokenize | src/lib/proofchecker/parser.ts:18-43 | the imperative `tokenize` (normalise, then the loop pushing onto `toks`) returns the token list of its input |
| Tokens.LexAll | src/lib/proofchecker/parser.ts:20-42 | the loop over the normalised string produces the token list, then `eof` |
| Tokens.ScanAt | src/lib/proofchecker/parser.ts:23-39 | one round of the loop, with the inner identifier loop, pushes the token and advances as specified |
| TokensProps.IffBeforeImp | src/lib/proofchecker/parser.ts:29-30 | `<->` is tested before `->`, so it is one `iff` token and scanning resumes three characters on |
| TokensProps.UnknownSkipped | src/lib/proofchecker/parser.ts:38-39 | a character that starts no token is skipped without a token |
| TokensProps.VInsideIdentifier | src/lib/proofchecker/parser.ts:28-34 | a `v` right after a letter is part of that identifier, not an `or` |
| TokensProps.ScanIdentifier | src/lib/proofchecker/parser.ts:32-36 | an identifier not starting with `v`, followed by a non-word character or the end, is one token |
| TokensProps.WordCharPlain | src/lib/proofchecker/parser.ts:8-16 | identifier characters are left alone by `normalize` |
| TokensProps.MapAliasesConcat | src/lib/proofchecker/parser.ts:8-16 | the character-by-character normalisation distributes over concatenation |
| TokensProps.MapAliasesOfIdentifier | src/lib/proofchecker/parser.ts:8-16 | an identifier is its own normal form |
| TokensProps.JoinedByV | src/lib/proofchecker/parser.ts:32-34 | two identifiers joined by `v` form one identifier |
| TokensProps.LexIdentifier | src/lib/proofchecker/parser.ts:32-41 | an identifier not starting with `v` is lexed as one identifier token and `eof` |
| TokensProps.TokensOfIdentifier | src/lib/proofchecker/parser.ts:18-43 | an identifier not starting with `v` is tokenized as itself |
| TokensProps.VAfterLetterJoins | src/lib/proofchecker/parser.ts:28-34 | `AvB` tokenizes as the one identifier `AvB`, not as a disjunction |
| TokensProps.SpacedVJoins | src/lib/proofchecker/parser.ts:10 | `A v B` with spaces parses as the single variable `AvB`, because white space is removed before tokenizing |
| TokensProps.TokensOfClean | src/lib/proofchecker/parser.ts:18-19 | text that normalisation leaves alone is lexed as it is |
| TokensProps.LexLeadingV | src/lib/proofchecker/parser.ts:28 | a leading `v` is an `or` token |
| TokensProps.NormalizeFixed | src/lib/proofchecker/parser.ts:8-16 | text the character map leaves alone is left alone by `normalize` |
| TokensProps.NormalizeAfterV | src/lib/proofchecker/parser.ts:8-16 | `v` followed by an identifier survives normalisation |
| TokensProps.LexAfterV | src/lib/proofchecker/parser.ts:32-41 | after a leading `v`, an identifier is one token |
| TokensProps.LeadingVIsOr | src/lib/proofchecker/parser.ts:28 | `vx` tokenizes as `or` followed by the identifier `x` |
| TokensProps.NormalizeDoubleArrow | src/lib/proofchecker/parser.ts:8-16 | `a=>b` is left as it is: `=>` is no alias in the parser's normalisation |
| TokensProps.LexDoubleArrowHead | src/lib/proofchecker/parser.ts:32-36 | the identifier before `=>` is one token ending at the `=` |
| TokensProps.LexDoubleArrowTail | src/lib/proofchecker/parser.ts:38-41 | `=` and `>` are skipped and the identifier after them is one token |
| TokensProps.DoubleArrowTokens | src/lib/proofchecker/parser.ts:18-43 | `a=>b` tokenizes as two identifiers side by side |
| TokensProps.DoubleArrowRejected | src/lib/proofchecker/parser.ts:72 | so parsing `a=>b` stops after `a` with "Unexpected tokens at end" |
| TokensProps.IdentifierParses | src/lib/proofchecker/parser.ts:126-129 | a single identifier token parses to its variable |
| Parser.ParseIffF | src/lib/proofchecker/parser.ts:76-84 | a successful `parseIff` consumes at least one token and stops before the end, and on clean tokens yields a well-named tree |
| Parser.IffRest | src/lib/proofchecker/parser.ts:78-82 | the `while` loop of `parseIff` never moves the cursor back and keeps trees well named |
| Parser.ParseImpF | src/lib/proofchecker/parser.ts:86-94 | a successful `parseImp` consumes at least one token and stops before the end |
| Parser.ParseOrF | src/lib/proofchecker/parser.ts:96-104 | a successful `parseOr` consumes at least one token and stops before the end |
| Parser.OrRest | src/lib/proofchecker/parser.ts:98-102 | the `while` loop of `parseOr` never moves the cursor back |
| Parser.ParseAndF | src/lib/proofchecker/parser.ts:106-114 | a successful `parseAnd` consumes at least one token and stops before the end |
| Parser.AndRest | src/lib/proofchecker/parser.ts:108-112 | the `while` loop of `parseAnd` never moves the cursor back |
| Parser.ParseNotF | src/lib/proofchecker/parser.ts:116-122 | a successful `parseNot` consumes at least one token |
| Parser.ParseAtomF | src/lib/proofchecker/parser.ts:124-139 | a successful `parseAtom` consumes at least one token; its variables are identifiers or `?` |
| Parser.ParseTokens | src/lib/proofchecker/parser.ts:70-74 | a successful `parse()` on clean tokens yields a well-named tree |
| Parser.ParseFormula | src/lib/proofchecker/parser.ts:48-51 | `new Parser(src).parse()` yields only well-named trees, the condition under which keys are injective |
| Parser.TokensClean | src/lib/proofchecker/parser.ts:32-36 | no identifier token of any input contains `)` |
| Parser.IdentifierHasNoClose | src/lib/proofchecker/parser.ts:32-34 | an identifier contains no `)` |
| Parser.Parser.constructor | src/lib/proofchecker/parser.ts:48-51 | the object holds the token list of its input and a cursor at 0 |
| Parser.Parser.Peek | src/lib/proofchecker/parser.ts:53 | `peek()` is the token under the cursor, `undefined` past the end |
| Parser.Parser.Eat | src/lib/proofchecker/parser.ts:54-59 | `eat(kind)` throws "Expected … but got …" on a kind mismatch and leaves the cursor; otherwise returns the token and moves one on; past the end it throws the TypeError of reading `undefined` |
| Parser.Parser.Parse | src/lib/proofchecker/parser.ts:70-74 | the method computes `parse()`: the expression, then "Unexpected tokens at end" unless `eof` follows |
| Parser.Parser.ParseIff | src/lib/proofchecker/parser.ts:76-84 | the method's result and final cursor agree with the `parseIff` function |
| Parser.Parser.ParseImp | src/lib/proofchecker/parser.ts:86-94 | the method's result and final cursor agree with the `parseImp` function |
| Parser.Parser.ParseOr | src/lib/proofchecker/parser.ts:96-104 | the method's result and final cursor agree with the `parseOr` function |
| Parser.Parser.ParseAnd | src/lib/proofchecker/parser.ts:106-114 | the method's result and final cursor agree with the `parseAnd` function |
| Parser.Parser.ParseNot | src/lib/proofchecker/parser.ts:116-122 | the method's result and final cursor agree with the `parseNot` function |
| Parser.Parser.ParseAtom | src/lib/proofchecker/parser.ts:124-139 | the method's result and final cursor agree with the `parseAtom` function |
| Parser.ParseSource | src/lib/proofchecker/engine.ts:86 | constructing a parser and calling `parse()` computes the parse of the source |
| ParserProps.Bracketed | src/lib/proofchecker/parser.ts:124-139 | a fully bracketed rendering starts with an identifier or `(`, so `parseAtom` reads it |
| ParserProps.AndLevel | src/lib/proofchecker/parser.ts:106-114 | a tree parsed by `parseNot` is `parseAnd`'s result when no `^` follows |
| ParserProps.OrLevel | src/lib/proofchecker/parser.ts:96-104 | a tree parsed by `parseAnd` is `parseOr`'s result when no `v` follows |
| ParserProps.ImpLevel | src/lib/proofchecker/parser.ts:86-94 | a tree parsed by `parseOr` is `parseImp`'s result when no `->` follows |
| ParserProps.IffLevel | src/lib/proofchecker/parser.ts:76-84 | a tree parsed by `parseImp` is `parseIff`'s result when no `<->` follows |
| ParserProps.AtomAllLevels | src/lib/proofchecker/parser.ts:76-122 | an atom followed by no binary connective is the result at every level |
| ParserProps.BracketedParses | src/lib/proofchecker/parser.ts:124-139 | `parseAtom` reads a fully bracketed rendering back as the tree it renders, consuming exactly it |
| ParserProps.NotCase | src/lib/proofchecker/parser.ts:116-122 | the `( ! x )` case of that |
| ParserProps.AndCase | src/lib/proofchecker/parser.ts:106-114 | the `( l ^ r )` case of that |
| ParserProps.OrCase | src/lib/proofchecker/parser.ts:96-104 | the `( l v r )` case of that |
| ParserProps.ImpCase | src/lib/proofchecker/parser.ts:86-94 | the `( l -> r )` case of that |
| ParserProps.IffCase | src/lib/proofchecker/parser.ts:76-84 | the `( l <-> r )` case of that |
| ParserProps.NotParses | src/lib/proofchecker/parser.ts:116-122 | `(` `!` and an operand parsed up to `)` read as the negation of the operand |
| ParserProps.AndParses | src/lib/proofchecker/parser.ts:106-114 | `(` `l` `^` `r` `)` with both operands parsed reads as `And(l, r)` |
| ParserProps.OrParses | src/lib/proofchecker/parser.ts:96-104 | `(` `l` `v` `r` `)` reads as `Or(l, r)` |
| ParserProps.ImpParses | src/lib/proofchecker/parser.ts:86-94 | `(` `l` `->` `r` `)` reads as `Imp(l, r)` |
| ParserProps.IffParses | src/lib/proofchecker/parser.ts:76-84 | `(` `l` `<->` `r` `)` reads as `Iff(l, r)` |
| ParserProps.BracketedRoundTrip | src/lib/proofchecker/parser.ts:70-139 | printing any tree fully bracketed and parsing it gives the tree back |
| ParserProps.ParenTransparent | src/lib/proofchecker/parser.ts:130-135 | `( e )` reads as `e` |
| ParserProps.Lift | src/lib/proofchecker/parser.ts:76-122 | an atom is the result at each looser level up to the first whose connective follows it |
| ParserProps.ImpRightAssoc | src/lib/proofchecker/parser.ts:86-94 | `x -> y -> z` is `x -> (y -> z)` |
| ParserProps.IffLeftFold | src/lib/proofchecker/parser.ts:76-84 | `x <-> y <-> z` is `(x <-> y) <-> z`: the loop folds left although the comment at line 61 says right-associative |
| ParserProps.OrLeftFold | src/lib/proofchecker/parser.ts:96-104 | `x v y v z` is `(x v y) v z` |
| ParserProps.AndLeftFold | src/lib/proofchecker/parser.ts:106-114 | `x ^ y ^ z` is `(x ^ y) ^ z` |
| ParserProps.AndBeforeOrRight | src/lib/proofchecker/parser.ts:96-114 | `^` binds tighter than `v`: `x v y ^ z` is `x v (y ^ z)` |
| ParserProps.AndBeforeOrLeft | src/lib/proofchecker/parser.ts:96-114 | `x ^ y v z` is `(x ^ y) v z` |
| ParserProps.OrBeforeImpRight | src/lib/proofchecker/parser.ts:86-104 | `v` binds tighter than `->`: `x -> y v z` is `x -> (y v z)` |
| ParserProps.OrBeforeImpLeft | src/lib/proofchecker/parser.ts:86-104 | `x v y -> z` is `(x v y) -> z` |
| ParserProps.ImpBeforeIffRight | src/lib/proofchecker/parser.ts:76-94 | `->` binds tighter than `<->`: `x <-> y -> z` is `x <-> (y -> z)` |
| ParserProps.ImpBeforeIffLeft | src/lib/proofchecker/parser.ts:76-94 | `x -> y <-> z` is `(x -> y) <-> z` |
| ParserProps.NotBeforeAnd | src/lib/proofchecker/parser.ts:106-122 | `!` binds tightest: `!x ^ y` is `(!x) ^ y` |
| ParserProps.DoubleNot | src/lib/proofchecker/parser.ts:116-122 | `!!x` is `!(!x)` |
| ParserProps.TrailingTokenError | src/lib/proofchecker/parser.ts:72 | a token left after the expression is "Unexpected tokens at end" |
| ParserProps.MissingCloseError | src/lib/proofchecker/parser.ts:133 | a missing `)` is `eat`'s "Expected rparen but got eof" |
| ParserProps.DanglingAndError | src/lib/proofchecker/parser.ts:137-138 | after a trailing `^` the fallback consumes `eof` as `?` and the next `peek` reads past the end, which throws |
| ParserProps.EmptyInputError | src/lib/proofchecker/parser.ts:137-138 | the empty input fails the same way |
| ParserProps.AtomFallback | src/lib/proofchecker/parser.ts:136-138 | a token out of place in atom position is consumed as the variable `?` |
| Formulas.LastAt | src/lib/proofchecker/engine.ts:27 | the greedy first group of `/^\((.+)\^(.+)\)$/` ends at the last occurrence of the operator that leaves the second group non-empty: it occurs there and at no later admissible place |
| Formulas.IdentMatches | src/lib/proofchecker/engine.ts:62 | every match of `/[a-zA-Z][a-zA-Z0-9_]*/g` is an identifier |
| Formulas.ExtractIdentifiers | src/lib/proofchecker/engine.ts:60-68 | the loop over the matches, skipping `forall` and `exists` and adding to the set, returns the set's insertion-ordered contents |
| Formulas.IsInstanceOf | src/lib/proofchecker/engine.ts:70-79 | the method with its early returns answers the instance test |
| Formulas.AnyReproduces | src/lib/proofchecker/engine.ts:75-77 | the loop returns true exactly when some identifier of the target, put in place of the variable, reproduces the normalised target |
| FormulasProps.NormalizedAlphabet | src/lib/proofchecker/engine.ts:6-17 | a normalised formula holds no white space and none of the aliases `∧ & → ∨ ↔ ¬ ~ ∀ ∃` |
| FormulasProps.NormalizedChar | src/lib/proofchecker/engine.ts:6-17 | every character of a normalised formula is free of white space and aliases |
| FormulasProps.ChainChar | src/lib/proofchecker/engine.ts:8-16 | the same for the replacement chain on a present formula |
| FormulasProps.EarlyStagesChars | src/lib/proofchecker/engine.ts:10-12 | after the first three replacements no `∧ & → ∨` is left, and every other character came from the input or is plain |
| FormulasProps.LaterStagesChars | src/lib/proofchecker/engine.ts:13-16 | after the last four replacements no `↔ ¬ ~ ∀ ∃` is left |
| FormulasProps.Stage1Chars | src/lib/proofchecker/engine.ts:10 | `.replace(/∧\|&/g, "^")` leaves no `∧` or `&` |
| FormulasProps.Stage2Chars | src/lib/proofchecker/engine.ts:11 | `.replace(/→\|=>/g, "->")` leaves no `→` |
| FormulasProps.Stage3Chars | src/lib/proofchecker/engine.ts:12 | `.replace(/∨\|\|\|/g, "v")` leaves no `∨` |
| FormulasProps.Stage4Chars | src/lib/proofchecker/engine.ts:13 | `.replace(/↔\|<=>/g, "<->")` leaves no `↔` |
| FormulasProps.Stage5Chars | src/lib/proofchecker/engine.ts:14 | `.replace(/¬\|~/g, "!")` leaves no `¬` or `~` |
| FormulasProps.Stage6Chars | src/lib/proofchecker/engine.ts:15 | `.replace(/∀/g, "forall")` leaves no `∀` |
| FormulasProps.Stage7Chars | src/lib/proofchecker/engine.ts:16 | `.replace(/∃/g, "exists")` leaves no `∃` |
| FormulasProps.NormalizedDotChars | src/lib/proofchecker/engine.ts:6-17 | a normalised formula has no line terminator, so every `.` of the later patterns matches in it |
| FormulasProps.PlainStage | src/lib/proofchecker/engine.ts:10-16 | a replacement each of whose patterns holds a character plain text lacks changes nothing |
| FormulasProps.NormalizePlain | src/lib/proofchecker/engine.ts:6-17 | text with no white space, no alias and no `=` or `\|` is its own normal form |
| FormulasProps.NormalizeMissing | src/lib/proofchecker/engine.ts:7 | a missing formula and an empty one both normalise to the empty string |
| FormulasProps.SplitOuterSound | src/lib/proofchecker/engine.ts:27-29 | a successful split means the formula is `(l OP r)` with both groups non-empty and matched by `.`, the operator at no later admissible place |
| FormulasProps.SplitOuterComplete | src/lib/proofchecker/engine.ts:27-29 | every formula of the form `(l OP r)` with non-empty groups splits |
| FormulasProps.NoParensJoin | src/lib/proofchecker/engine.ts:22 | parenthesis-free text around a `^` is parenthesis-free on both sides, and conversely |
| FormulasProps.ConjunctionSplits | src/lib/proofchecker/engine.ts:19-30 | whenever `isConjunction`'s pattern holds, `splitConjunction` succeeds with parenthesis-free parts |
| FormulasProps.SplitIsConjunction | src/lib/proofchecker/engine.ts:19-30 | a split into parenthesis-free parts satisfies `isConjunction`'s pattern |
| FormulasProps.ConjunctionTextIffSplit | src/lib/proofchecker/engine.ts:19-30 | on normalised text `isConjunction` holds exactly when `splitConjunction` succeeds with parenthesis-free parts |
| FormulasProps.NegatedTextShape | src/lib/proofchecker/engine.ts:291 | `/^!(.+)$/` matches exactly a `!` followed by a non-empty rest, and takes off that one `!` |
| FormulasProps.QuantifierRoundTrip | src/lib/proofchecker/engine.ts:35-38 | writing a quantified formula out as `WORDv(body)` and matching it gives it back |
| FormulasProps.QuantifierMatchShape | src/lib/proofchecker/engine.ts:35-38 | a match is the written-out form of what it returns, with a letter as variable |
| FormulasProps.QuantifierKindsExclusive | src/lib/proofchecker/engine.ts:35-38 | no text matches both the `forall` and the `exists` pattern, so the order they are tried in decides nothing |
| FormulasProps.MatchEitherQuantifierOf | src/lib/proofchecker/engine.ts:33-40 | text matching one quantifier pattern is recognised as that quantifier |
| FormulasProps.ParseQuantifiedPlain | src/lib/proofchecker/engine.ts:33-40 | `parseQuantified` recognises a plain quantified formula as itself |
| FormulasProps.ReplaceVarFromAbsent | src/lib/proofchecker/engine.ts:42-44 | where the variable never stands alone, `replaceVar` changes nothing |
| FormulasProps.ReplaceVarSelf | src/lib/proofchecker/engine.ts:42-44 | replacing the variable by itself changes nothing |
| FormulasProps.ReplaceVarAlone | src/lib/proofchecker/engine.ts:42-44 | the variable on its own is replaced by the term |
| FormulasProps.ReplaceVarOtherIdentifier | src/lib/proofchecker/engine.ts:43 | only whole identifiers are replaced: `xy` or `y` is left alone when replacing `x` |
| FormulasProps.ReplaceVarFromChar | src/lib/proofchecker/engine.ts:42-44 | replacing by one character changes exactly the positions where the variable stands alone |
| FormulasProps.RenameBody | src/lib/proofchecker/engine.ts:53-55 | renaming the bound variable to a letter not free in the body gives a body `alphaEqual` renames to the same text |
| FormulasProps.AlphaEqualReflexive | src/lib/proofchecker/engine.ts:46-58 | `alphaEqual` holds of every formula and itself |
| FormulasProps.AlphaEqualSymmetric | src/lib/proofchecker/engine.ts:46-58 | `alphaEqual` does not depend on the order of its arguments |
| FormulasProps.AlphaEqualOfQuantified | src/lib/proofchecker/engine.ts:50-56 | two normalised quantified formulas of one kind whose bodies agree after renaming to `_v` are alpha-equal |
| FormulasProps.AlphaEqualRenamed | src/lib/proofchecker/engine.ts:46-58 | `Qx(P)` and `Qy(P[x:=y])` are alpha-equal when `y` is not free in a plain `P` |
| FormulasProps.CollectIdentifiersSpec | src/lib/proofchecker/engine.ts:63-66 | the loop keeps what was already in the set, adds every match that is not a quantifier word, and never adds one twice |
| FormulasProps.IdentifiersOfSpec | src/lib/proofchecker/engine.ts:60-68 | `extractIdentifiers` holds exactly the maximal identifier matches other than `forall`/`exists`, each once |
| FormulasProps.ScannerReaches | src/lib/proofchecker/engine.ts:62 | the global match finds the identifier that starts at a letter not continuing a word |
| FormulasProps.ReplaceVarSplit | src/lib/proofchecker/engine.ts:43 | the global replacement splits at any position |
| FormulasProps.ReplaceVarFromPlain | src/lib/proofchecker/engine.ts:43 | substituting plain text into plain text gives plain text |
| FormulasProps.BeforeOccurrence | src/lib/proofchecker/engine.ts:43 | just before a replaced occurrence the result has no word character, as the look-behind demands |
| FormulasProps.AfterOccurrence | src/lib/proofchecker/engine.ts:43 | just after a replaced occurrence the result has no word character, as the look-ahead demands |
| FormulasProps.IdentifierBetween | src/lib/proofchecker/engine.ts:62 | an identifier between two non-word characters is one whole match |
| FormulasProps.SubstitutedOccurrence | src/lib/proofchecker/engine.ts:42-44 | substituting an identifier for a free occurrence makes that identifier a match of the result |
| FormulasProps.OccurrenceSplit | src/lib/proofchecker/engine.ts:43 | the replacement around one free occurrence is what comes before, the term, what comes after |
| FormulasProps.InstanceBySubstitution | src/lib/proofchecker/engine.ts:70-79 | `isInstanceOf` accepts every target got by substituting an identifier other than a quantifier word for the variable in a plain body |
| FormulasProps.InstanceOfSound | src/lib/proofchecker/engine.ts:70-79 | and it accepts nothing else: the normalised texts are equal, or some non-quantifier identifier of the target, substituted, reproduces it |
| Proofs.DigitChar | src/lib/proofchecker/engine.ts:331 | the digit character of a value below ten is a digit and reads back as that value |
| Proofs.NumberOf | src/lib/proofchecker/engine.ts:331 | `Number(s)` of a trimmed, non-empty run of decimal digits is its decimal value; `Number(undefined)` is `NaN` (`None`) |
| Proofs.NatText | src/lib/proofchecker/engine.ts:331 | the decimal text of a natural number is a non-empty run of digits |
| Proofs.NatTextValue | src/lib/proofchecker/engine.ts:331 | reading back the decimal text of `n` gives `n` |
| Proofs.TrimUnspaced | src/lib/proofchecker/engine.ts:331 | text without white space at either end is unchanged by the trim `Number` applies first |
| Proofs.NumberOfNatText | src/lib/proofchecker/engine.ts:331 | `Number(String(n)) === n`: a numeral line number is read back as the number it writes |
| Proofs.ZeroPrefixValue | src/lib/proofchecker/engine.ts:331 | a leading zero does not change the value of a digit run |
| Proofs.LeadingZeroSameNumber | src/lib/proofchecker/engine.ts:331 | the citation test `Number(a) === Number(b)` holds between `"0" + String(n)` and `String(n)`: a subproof citation matches a frame whose first line number differs only by a leading zero |
| Frames.Subproofs | src/lib/proofchecker/engine.ts:434 | one reported subproof per frame, in order, with its depth, start line number and assumption, and its end line number or, for an unclosed frame, its start |
| Frames.TrackFrames | src/lib/proofchecker/engine.ts:114-139 | the opening loop, the closing loop and the final `while (stack.length)` loop compute exactly `FramesOf(lines)` |
| Frames.PopFrame | src/lib/proofchecker/engine.ts:131-132 | one `stack.pop()` and the write of the end index and end line number through the popped frame, which is shared with `frames`; a pop on an empty stack changes nothing |
| FramesProps.ShapeWeaken | src/lib/proofchecker/engine.ts:114-139 | the tracker's shape invariant for a prefix of the proof still holds for any longer prefix |
| FramesProps.PushShape | src/lib/proofchecker/engine.ts:123-124 | pushing a new open frame onto both `stack` and `frames` keeps the shape invariant: the stack lists exactly the open frames, oldest first |
| FramesProps.PopShape | src/lib/proofchecker/engine.ts:131-132 | popping at the end of a prefix closes the innermost frame there and keeps the shape invariant |
| FramesProps.OpenFromShape | src/lib/proofchecker/engine.ts:121-126 | the opening loop keeps the shape invariant |
| FramesProps.CloseFromShape | src/lib/proofchecker/engine.ts:128-133 | the closing loop keeps the shape invariant |
| FramesProps.CloseFromEmpty | src/lib/proofchecker/engine.ts:131-132 | the closing loop on an empty stack changes nothing (`if (f)` guards the write) |
| FramesProps.StepShape | src/lib/proofchecker/engine.ts:117-134 | one pass of the line loop keeps the shape invariant, with the first line's prefix included |
| FramesProps.TrackShape | src/lib/proofchecker/engine.ts:117-134 | after any number of lines the tracker has the shape invariant |
| FramesProps.CloseRestShape | src/lib/proofchecker/engine.ts:136-138 | the final loop empties the stack and keeps the shape invariant |
| FramesProps.FramesClosed | src/lib/proofchecker/engine.ts:114-139 | whatever the depths, every frame ends up closed, starts no later than it ends, lies inside the proof, and records the line numbers of its first and last lines and its first line's formula as assumption |
| FramesProps.SubproofEnds | src/lib/proofchecker/engine.ts:434 | so the `?? startLineNo` default of the reported end is never used: each reported end is the line number of the frame's last line |
| FramesProps.ExtendNest | src/lib/proofchecker/engine.ts:117-134 | a line at least as deep as the stack keeps every open frame open at its depth |
| FramesProps.PushNest | src/lib/proofchecker/engine.ts:123-124 | a frame pushed at depth one more than the stack keeps the nesting invariant |
| FramesProps.PopNest | src/lib/proofchecker/engine.ts:131-132 | a pop before a shallower line, or at the end, closes the innermost frame as a maximal subproof and shortens the stack by one |
| FramesProps.OpenFromNest | src/lib/proofchecker/engine.ts:121-126 | the opening loop leaves one open frame per level up to the line's depth, each entered from a shallower line |
| FramesProps.CloseFromNest | src/lib/proofchecker/engine.ts:128-133 | the closing loop leaves exactly as many open frames as the new depth, and each frame it closes is a subproof |
| FramesProps.StepNest | src/lib/proofchecker/engine.ts:117-134 | with non-negative depths, after each line the stack is exactly as deep as that line and the nesting invariant holds |
| FramesProps.TrackNest | src/lib/proofchecker/engine.ts:117-134 | after any number of lines with non-negative depths, the stack is as deep as the last line and the nesting invariant holds |
| FramesProps.CloseRestNest | src/lib/proofchecker/engine.ts:136-138 | the final loop closes the frames still open as subproofs running to the last line |
| FramesProps.FramesAreSubproofs | src/lib/proofchecker/engine.ts:114-139 | with non-negative depths every frame is a maximal run of lines at its depth or deeper, entered from a shallower line |
| Rules.MatchesSuffix | src/lib/proofchecker/engine.ts:264 | a case-insensitive match of a word is also a match of each of its suffixes further on |
| Rules.WordsStep | src/lib/proofchecker/engine.ts:264 | a match of `w\s*rest` is a match of `w` followed, after the spaces, by a match of `rest` |
| Rules.WordsSuffix | src/lib/proofchecker/engine.ts:264 | a match of `w\s*rest` is also, `k` characters later, a match of the list with its first word shortened by `k` |
| Rules.BicondElimNamesCondElim | src/lib/proofchecker/engine.ts:217-264 | every text `/biconditional\s*elim/i` matches is also matched by `/conditional\s*elim/i` |
| Rules.DoubleNegIntroNamesNegIntro | src/lib/proofchecker/engine.ts:290 | every text naming double negation introduction is matched by `/negation\s*intro/i` |
| Rules.ShadowedBranch | src/lib/proofchecker/engine.ts:159-419 | in a first-match chain, a branch whose pattern implies an earlier branch's is never taken |
| Rules.BicondElimUnreachable | src/lib/proofchecker/engine.ts:217-264 | as written no rule text reaches the biconditional elimination branch |
| Rules.BicondElimReached | src/lib/proofchecker/engine.ts:264-289 | in the corrected chain a text naming biconditional elimination, and none of the rules tested before conditional elimination, gets the biconditional elimination check |
| Rules.DoubleNegIntroAsNegIntro | src/lib/proofchecker/engine.ts:290-325 | as written a text naming double negation introduction, and none of the rules tested earlier, is checked as negation introduction |
| Rules.DoubleNegIntroNotNegIntro | src/lib/proofchecker/engine.ts:290 | in the corrected chain double negation introduction is never checked as negation introduction |
| Rules.ClassifyAgrees | src/lib/proofchecker/engine.ts:159-419 | the correction changes the branch only for texts naming biconditional elimination or double negation introduction |
| Checks.Texts | src/lib/proofchecker/engine.ts:147-420 | one recorded text per message, in the order the checks push them, each the exact string `validateProof` records |
| Checks.ParseAstSafe | src/lib/proofchecker/engine.ts:82-92 | `parseAstSafe` returns a formula only when the parser succeeds on `src ?? ""`, and every formula it returns has well-formed names |
| Checks.FindFrame | src/lib/proofchecker/engine.ts:294 | `frames.find(test)` returns a frame of the list that passes the test, and returns nothing only when no frame passes |
| Checks.FindFrameFrom | src/lib/proofchecker/engine.ts:294 | the search from index `i` returns a frame from there on that passes, or nothing when none from there on does |
| Checks.RefIndices | src/lib/proofchecker/engine.ts:298-302 | `refs.filter(inside).map(...)`: every index lies inside the frame and is the index of a reference that is inside it |
| Checks.ParsedRefs | src/lib/proofchecker/engine.ts:316-317 | one parsed formula per referenced line |
| Checks.ParsedRefsAt | src/lib/proofchecker/engine.ts:316-317 | entry `k` of the parsed references is `parseAstSafe(lines[ris[k]]?.formula)` |
| ChecksProps.EquivReflexive | src/lib/proofchecker/ast.ts:147-152 | every formula is canonically equal to itself |
| ChecksProps.WhenBoth | src/lib/proofchecker/engine.ts:153-154 | two conditional pushes record nothing exactly when neither condition holds |
| ChecksProps.ClashSymmetric | src/lib/proofchecker/engine.ts:318 | the corrected contradiction test does not depend on the order of its two formulas |
| ChecksProps.ClashAsWrittenSound | src/lib/proofchecker/engine.ts:318 | every pair the test as written finds contradictory is a contradiction |
| ChecksProps.ClashAsWrittenMisses | src/lib/proofchecker/engine.ts:318 | the test as written misses exactly the pairs where the first formula is a negation, the second negates the first, and the first does not negate the second |
| ChecksProps.ClashAsWrittenCounterexample | src/lib/proofchecker/engine.ts:318 | `!P` and `!!P` contradict each other, and the test as written does not find it |
| ChecksProps.ReiterationAccepts | src/lib/proofchecker/engine.ts:164-172 | reiteration records nothing exactly when there is one reference, it names a checked line with a non-empty formula, and that formula normalizes to the conclusion |
| ChecksProps.ConjIntroAccepts | src/lib/proofchecker/engine.ts:173-190 | with all three formulas parsed, conjunction introduction records nothing exactly when there are two references and the conclusion is a conjunction whose sides are canonically equal to the first and the second reference |
| ChecksProps.ConjIntroComplete | src/lib/proofchecker/engine.ts:173-190 | `A^B` cited from lines holding `A` and `B`, in that order, is accepted |
| ChecksProps.ConjIntroByText | src/lib/proofchecker/engine.ts:173-200 | when a formula does not parse, conjunction introduction records nothing exactly when there are two references, the conclusion has the `(L^R)` shape, both referenced texts are non-empty and they are the last-`^` split of the conclusion |
| ChecksProps.ConjIntroTextual | src/lib/proofchecker/engine.ts:190-198 | without all three parses the check is the reference count, the shape test and the text comparison, in that order |
| ChecksProps.ConjunctTextsMeans | src/lib/proofchecker/engine.ts:192-197 | once the conclusion splits, the text comparison records nothing exactly when both referenced texts are non-empty and equal the two parts |
| ChecksProps.ConjElimAccepts | src/lib/proofchecker/engine.ts:201-216 | with both formulas parsed, conjunction elimination records nothing exactly when there is one reference, it holds a conjunction, and the conclusion is canonically equal to one of its sides |
| ChecksProps.ConjElimComplete | src/lib/proofchecker/engine.ts:201-216 | `A`, and `B`, cited from a line holding `A^B` is accepted |
| ChecksProps.CondElimAccepts | src/lib/proofchecker/engine.ts:217-228 | with all formulas parsed, conditional elimination records nothing exactly when there are two references and one is `A`, the other `A->B` with the conclusion `B`, in either order |
| ChecksProps.CondElimComplete | src/lib/proofchecker/engine.ts:217-228 | `B` from `A` and `A->B`, cited in either order, is accepted |
| ChecksProps.CondElimUnparsed | src/lib/proofchecker/engine.ts:222 | a conclusion that does not parse passes conditional elimination whatever the two references hold |
| ChecksProps.ModusTollensAccepts | src/lib/proofchecker/engine.ts:229-242 | with all formulas parsed, modus tollens records nothing exactly when there are two references forming `A->B` and `!B` with the conclusion `!A`, in either order |
| ChecksProps.ModusTollensComplete | src/lib/proofchecker/engine.ts:229-242 | `!A` from `A->B` and `!B`, cited in either order, is accepted |
| ChecksProps.BicondIntroAccepts | src/lib/proofchecker/engine.ts:243-263 | with all formulas parsed, biconditional introduction records nothing exactly when there are two references, both conditionals, running both ways between the sides of the conclusion |
| ChecksProps.BicondIntroComplete | src/lib/proofchecker/engine.ts:243-263 | `A<->B` from `A->B` and `B->A`, cited in either order, is accepted |
| ChecksProps.BicondElimAccepts | src/lib/proofchecker/engine.ts:264-289 | with all formulas parsed, biconditional elimination records nothing exactly when there are two references, one a biconditional and the other one of its sides, and the conclusion is the other side |
| ChecksProps.BicondElimComplete | src/lib/proofchecker/engine.ts:264-289 | either side of `A<->B`, from the biconditional and the other side cited in either order, is accepted |
| ChecksProps.FindFrameFromFirst | src/lib/proofchecker/engine.ts:294 | the frame the search from `i` returns is the first from there on that passes |
| ChecksProps.FindFrameFirst | src/lib/proofchecker/engine.ts:294 | `frames.find` returns the first frame that passes, and nothing exactly when none passes |
| ChecksProps.FindFrameIsFirst | src/lib/proofchecker/engine.ts:294 | a frame is found exactly when some frame is the first to pass, and the frame found is that one |
| ChecksProps.AnyFromMeans | src/lib/proofchecker/engine.ts:304-313 | the first search loop, as a recursion from position `k`, finds a reference satisfying its test exactly when one from `k` on does |
| ChecksProps.ConjunctionFromIsAny | src/lib/proofchecker/engine.ts:304-313 | the first search loop is that recursion with the clashing-conjunction test |
| ChecksProps.ConjunctionFromMeans | src/lib/proofchecker/engine.ts:304-313 | the first search loop, from position `k`, succeeds exactly when some referenced line from `k` on is `(X^Y)` whose sides the one-way test as written finds contradictory |
| ChecksProps.PartnerFromMeans | src/lib/proofchecker/engine.ts:315-320 | the inner loop of the pair search, from `j` on, succeeds exactly when the one-way test as written finds formula `i` and some later formula contradictory |
| ChecksProps.PairBelowMeans | src/lib/proofchecker/engine.ts:315-321 | the first `i` rounds of the pair search succeed exactly when the one-way test as written finds some pair contradictory whose first formula comes before `i` |
| ChecksProps.ContradictionMeans | src/lib/proofchecker/engine.ts:303-322 | the search finds a contradiction exactly when a referenced line is a conjunction whose sides the one-way test as written finds contradictory, or that test finds two referenced lines, in reference order, contradictory |
| ChecksProps.ContradictionInside | src/lib/proofchecker/engine.ts:297-322 | a contradiction found is a clashing conjunction or a clashing pair, by the test as written, among the references inside the frame |
| ChecksProps.RefIndicesOfPair | src/lib/proofchecker/engine.ts:298-302 | two references inside the frame give their two line indices, in reference order |
| ChecksProps.PairContradiction | src/lib/proofchecker/engine.ts:315-321 | references to a line `!B` and then a line `B` inside the frame hold a contradiction; the other way round they do only when `B` is not a negation |
| ChecksProps.NegIntroAccepts | src/lib/proofchecker/engine.ts:290-325 | negation introduction accepts `!A` exactly when there is a reference and the first frame whose assumption is alpha-equal to `A` holds a contradiction among the references inside it |
| ChecksProps.NegIntroComplete | src/lib/proofchecker/engine.ts:290-325 | `!A` is accepted when, in the first frame assuming `A`, lines `!B` and `B` are cited, negation first, or in either order when `B` is not a negation |
| ChecksProps.NegIntroSound | src/lib/proofchecker/engine.ts:290-325 | an accepted negation introduction has references and concludes `!A`, taken from a frame that assumes `A` up to renaming of bound variables and that holds a contradiction among the references inside it |
| ChecksProps.IndirectProofSound | src/lib/proofchecker/engine.ts:345-384 | an accepted indirect proof concludes a parsed formula `A`, from a frame assuming `!A` up to canonical equality and holding a contradiction among the references inside it |
| ChecksProps.IndirectProofAccepts | src/lib/proofchecker/engine.ts:345-384 | indirect proof accepts `A` exactly when it parses and the first frame whose assumption is canonically `!A` holds a contradiction among the references inside it |
| ChecksProps.IndirectProofComplete | src/lib/proofchecker/engine.ts:345-384 | `A` is accepted when, in the first frame assuming `!A`, lines `!B` and `B` are cited, negation first, or in either order when `B` is not a negation |
| ChecksProps.CondIntroAccepts | src/lib/proofchecker/engine.ts:326-344 | conditional introduction accepts `(A->B)` exactly when there are two references, the first frame starting at the first assumes `A` up to renaming, and the second reference is a line inside it whose formula is canonically `B` |
| ChecksProps.CondIntroComplete | src/lib/proofchecker/engine.ts:326-344 | `(A->B)` is accepted when the first frame starting at the first cited line assumes `A` as written and the second cited line, inside it, parses to the same formula as `B` |
| ChecksProps.CondIntroSound | src/lib/proofchecker/engine.ts:326-344 | an accepted conditional introduction has two references and concludes `(A->B)`, from a frame starting at the line the first reference numbers and assuming `A` up to renaming, with the second reference a line inside that frame whose formula is canonically `B` |
| ChecksProps.UnivIntroAccepts | src/lib/proofchecker/engine.ts:385-394 | universal introduction records nothing exactly when the conclusion is `forallx(P)` with a one-letter variable, there is one reference, and its formula is an instance of `P` |
| ChecksProps.UnivElimAccepts | src/lib/proofchecker/engine.ts:395-403 | universal elimination records nothing exactly when there is one reference, it reads `forallx(P)`, and the conclusion is an instance of `P` |
| ChecksProps.ExistIntroAccepts | src/lib/proofchecker/engine.ts:404-412 | existential introduction records nothing exactly when there is one reference, the conclusion reads `existsx(P)`, and the reference is an instance of `P` |
| ChecksProps.ExistElimIgnoresConclusion | src/lib/proofchecker/engine.ts:413-419 | existential elimination does not look at the conclusion, and records nothing exactly when there are at least two references and the first reads `existsx(P)` |
| Engine.IndexUpTo | src/lib/proofchecker/engine.ts:142-143 | after the first `k` lines every index in `lineIndexByNo` is that of one of those lines |
| Engine.ByNoStep | src/lib/proofchecker/engine.ts:427 | checking a line enters it into `lineByNo` under its number, over any earlier line with the same number, and changes nothing else |
| Engine.VerdictsUpTo | src/lib/proofchecker/engine.ts:145-429 | one verdict per line, in order, each from the line and `lineByNo` as the lines before it left it |
| Engine.ParseMemo.constructor | src/lib/proofchecker/engine.ts:81 | the memo starts empty, and an empty memo holds only correct parses |
| Engine.ParseMemo.Parse | src/lib/proofchecker/engine.ts:82-92 | the memoised parse returns exactly what a fresh parse of `src ?? ""` would, caches it under that key when the parse succeeds and caches nothing when it fails, and keeps every cached tree the parse of its key |
| Engine.IndexLines | src/lib/proofchecker/engine.ts:142-143 | the `forEach` loop builds exactly `lineIndexByNo`, each line number mapped to the last line with it |
| Engine.CollectRefIndices | src/lib/proofchecker/engine.ts:298-302 | the filter-and-map loop yields exactly the indices of the references inside the frame, in reference order |
| Engine.FindContradiction | src/lib/proofchecker/engine.ts:303-322 | the two loops find a contradiction exactly when the specification of the search does, and leave the memo valid |
| Engine.ScanConjunctions | src/lib/proofchecker/engine.ts:304-313 | the first loop, ended by its first hit, finds exactly a referenced line that is a conjunction with contradicting sides |
| Engine.ScanPairs | src/lib/proofchecker/engine.ts:315-321 | the nested loops, where a hit ends only the inner one, find exactly a contradicting pair of referenced lines |
| Engine.ScanPartners | src/lib/proofchecker/engine.ts:315-320 | the inner loop finds exactly a later referenced line contradicting line `ris[i]` |
| Engine.ConjunctionClashes | src/lib/proofchecker/engine.ts:305-311 | one round of the first loop: the line is `(X^Y)` and the one-way test as written finds the parses of `X` and `Y` contradictory |
| Engine.LinesClash | src/lib/proofchecker/engine.ts:316-318 | one round of the inner loop: the one-way test as written finds the parsed formulas of the two referenced lines contradictory |
| Engine.NegIntroStep | src/lib/proofchecker/engine.ts:290-325 | the negation introduction branch, with its loops, records exactly what the negation introduction check specifies |
| Engine.IndirectProofStep | src/lib/proofchecker/engine.ts:345-384 | the indirect proof branch, with its loops, records exactly what the indirect proof check specifies |
| Engine.UnivIntroStep | src/lib/proofchecker/engine.ts:385-394 | the universal introduction branch, running the loop of `isInstanceOf`, records exactly what the check specifies |
| Engine.UnivElimStep | src/lib/proofchecker/engine.ts:395-403 | the universal elimination branch, running the loop of `isInstanceOf`, records exactly what the check specifies |
| Engine.ExistIntroStep | src/lib/proofchecker/engine.ts:404-412 | the existential introduction branch, running the loop of `isInstanceOf`, records exactly what the check specifies |
| Engine.CheckLine | src/lib/proofchecker/engine.ts:145-426 | the body of the line loop gives exactly the specified verdict on the line, and its parsed formula for `lineByNo` |
| Engine.RuleStep | src/lib/proofchecker/engine.ts:159-420 | the rule dispatch records exactly what the check of the cited rule specifies |
| Engine.EveryOk | src/lib/proofchecker/engine.ts:432 | `results.every((r) => r.ok)` holds exactly when every verdict is ok |
| Engine.ValidateProof | src/lib/proofchecker/engine.ts:94-436 | `validateProof`, with its premise parsing, its frame tracking, its line index and its line loop, returns exactly the specified result and leaves the memo valid |
| EngineProps.IndexUpToMeans | src/lib/proofchecker/engine.ts:142-143 | after the first `k` lines a number is in `lineIndexByNo` exactly when one of those lines has it, and it maps to the last of them |
| EngineProps.ByNoUpToMeans | src/lib/proofchecker/engine.ts:427 | a reference resolves only to a line checked before: `lineByNo` holds a number exactly when an earlier line has it, and holds the last such line |
| EngineProps.IndexOfMeans | src/lib/proofchecker/engine.ts:142-143 | the whole proof's `lineIndexByNo` maps each number that occurs to the last line that has it |
| EngineProps.RequiredFirst | src/lib/proofchecker/engine.ts:153-154 | the missing-number and missing-formula messages come first, in that order, and no message is recorded exactly when both fields are there and the rule adds none |
| EngineProps.LineVerdictMeans | src/lib/proofchecker/engine.ts:145-428 | a line keeps its number and is accepted exactly when it has a number, its normalized formula is not empty and its rule's check records nothing, with the missing-field messages first |
| EngineProps.UncheckedLineMeans | src/lib/proofchecker/engine.ts:159-163 | a premise, and a line whose rule has no check in the chain as written, is accepted exactly when it has a number and a non-empty formula |
| EngineProps.NoLineIsBicondElim | src/lib/proofchecker/engine.ts:217-264 | no proof line, whatever its rule text, is checked by the biconditional elimination branch |
| EngineProps.ValidateMeans | src/lib/proofchecker/engine.ts:431-435 | one verdict per line, in the lines' order, each judged with `lineByNo` holding exactly the lines before it and with the frames and line index of the whole proof; the proof is accepted exactly when every line is and the conclusion is not empty; one subproof is reported per frame |
| EngineProps.SubproofRuleSeesWholeProof | src/lib/proofchecker/engine.ts:113-384 | a line citing negation introduction, indirect proof or conditional introduction gets the same verdict whatever `lineByNo` holds: it is judged against the frames and line index of the whole proof |
| EngineProps.ConclusionNotCompared | src/lib/proofchecker/engine.ts:432 | the conclusion is only tested for being non-empty: any two non-empty conclusions give the same result |
| EngineProps.EmptyCases | src/lib/proofchecker/engine.ts:432 | an empty conclusion is never accepted, and a proof without lines is accepted exactly when the conclusion is non-empty |
| EngineProps.ReiterationCitesEarlierLine | src/lib/proofchecker/engine.ts:164-172 | an accepted reiteration cites exactly one line, checked before it, whose normalized formula is its own |

## Left out

- The `rules` argument of `validateProof` is never read, and the `known`/`knownAst` sets are written but never read (src/lib/proofchecker/engine.ts:94-109, 422-426). The model has neither set. `ValidateProof` parses each premise through the memo, as `engine.ts` does, and drops the result.
- `parseMemo` is process-wide state in `engine.ts`. Here it is a `ParseMemo` object passed to the methods. Its invariant makes a cached parse indistinguishable from a fresh one, so sharing across calls changes no result.
- The comment field of a proof line and the `Ruleset` type of `types.ts` are carried but never used by the engine.
- Engine.ValidateProof: does not model fractional depths. `depth` is an `int`, and JavaScript numbers that are not integers are not represented.
- Proofs.NumberOf: JavaScript's `Number(...)` is modelled only for trimmed empty text (0) and optionally signed decimal digit runs. Hexadecimal, exponent and fractional forms, `Infinity` and the other coercions all read as `NaN`, here `None`.
- `String(line.lineNo ?? "?")`: `lineNo` is a string in `types.ts`, so the `"?"` default is never taken and the model uses the line number as it is.
- Integers are unbounded. The source's quantities (indices, depths, reference counts) stay far below JavaScript's exact integer range, so no wrap-around is modelled.
- The API routes, the web worker `validator.worker.ts` that forwards to `validateProof`, the React pages and components, authentication and the database are not part of this model.
- The evidence `info` text uses the frame's start line number as stored. No template-literal formatting beyond concatenation is modelled.

## Findings

| source | as written | input that shows it | evidently intended | confidence | as-written member | corrected member |
|---|---|---|---|---|---|---|
| src/lib/proofchecker/engine.ts:217 | `/conditional\s*elim/i` is tested before `/biconditional\s*elim/i` and matches every text the latter does, so the biconditional elimination branch (engine.ts:264-289) is never reached | rule text `Biconditional Elim`, which the proof editor offers at src/app/proofs/[id]/edit/page.tsx:538, is checked as conditional elimination | biconditional elimination is checked by its own branch | not executed; high | Rules.BicondElimUnreachable | Rules.BicondElimReached |
| src/lib/proofchecker/engine.ts:290 | `/negation\s*intro/i` also matches `Double Negation Intro`, so that rule is checked as negation introduction and needs a subproof and a contradiction | rule text `Double Negation Intro`, which the editor offers at src/app/proofs/[id]/edit/page.tsx:535, citing one line `A` to conclude `!!A` | double negation introduction is not checked as negation introduction (like the other rules without a check, it is left unchecked) | not executed; medium | Rules.DoubleNegIntroAsNegIntro | Rules.DoubleNegIntroNotNegIntro |
| src/lib/proofchecker/engine.ts:318 | the contradiction test tries only "`x` negates `y`" when `x` is a negation, so it misses "`y` negates `x`" (the same test is at engine.ts:309, 368 and 377) | references, in this order, to a line `!P` and a line `!!P` inside the subproof | two formulas contradict when either one is the negation of the other | not executed; high | ChecksProps.ClashAsWrittenCounterexample | ChecksProps.ClashSymmetric |
