# Verified model of the specification tool-chain

A Dafny model of the scripts that turn an API registry and asciidoc sources into headers, specification
chapters and reference pages, with proofs of what those scripts are relied on for. Two small C/C++
algorithms of the same repository are modelled as well. `dafny verify dfyconfig.toml` checks everything.

| modules | what they model |
|---|---|
| `Graphs`, `RegistryModel`, `RegistryMeaning`, `GenerateTrace`, `Registry` | the registry's three passes: marking, removing, generating |
| `DependencySyntax`, `DependencyMeaning`, `DependencyPrinting`, `DependencyFlattening`, `Dependency`, `DependencyText` | dependency expressions: parsing to a stack, evaluating, printing, collecting names |
| `ExtDependency` | extension closures in the dependency graph |
| `HandleParents` | the nearest common parent of handle parameters |
| `ReflowText`, `ReflowPara`, `ReflowTags`, `ReflowTagText`, `ReflowFilling`, `ReflowPatterns`, `ReflowBlocks`, `ReflowTrace`, `ReflowRun`, `ReflowParagraphs`, `ReflowListing`, `ReflowMachine` | paragraph and file reflow, with Valid Usage tags and blocks that must stay as they are |
| `RefPageScan`, `RefPages`, `RefPageSections`, `RefPageText` | finding, sectioning and extracting reference pages |
| `Enums`, `FeatureSort` | enumerant values and declarations, feature sorting |
| `PagePairs`, `Appendix` | page pairing of two documents, the extension appendices |
| `VideoMode`, `HexText` | video mode search, bytes to hexadecimal text |
| `Wrappers`, `Sequences` | shared datatypes and sequence facts |

The objects that the scripts update in place (`Info` flags, the expression stack, graph nodes, the reflow
state, page records, gap finders, output files) are classes, and every method is proved against a function or
relation on values. The main theorems are lemmas about those. `RegistryMeaning`, `DependencyText`,
`ReflowTagText`, `ReflowFilling`, `ReflowPatterns`, `ReflowParagraphs` and `RefPageText` say what the functions
come to in terms of the attributes, characters and lines of the input alone.

Results that differ from what the code or its documentation suggests:

- Marking an item halts if and only if nothing it leads to leads back to itself (`MarkingHaltsExactly`).
  `markTypeRequired` guards against self-references except through `bitvalues`; `markEnumRequired` and
  `markCmdRequired` have no such guard (`UnguardedSelfReferences`, and `SelfBitvalues` for a registry). What is
  not reached from the tags does not matter, removing a type always halts, and generation needs no such
  condition.
- Passes 1 and 2 abort on a required enum or command that is neither defined nor carries an alias attribute of
  its own, on a type alias that does not lead to a type of one of the eleven categories of the feature
  dictionary, and on a `usage` of something undefined; a required type that is undefined is only skipped.
- An alias of an enumerated type that has no group raises an exception even if nothing is being emitted.
- A dropped leading operator (`+a`) is accepted by the grammar. A name that begins with a digit or `_` parses
  but cannot be evaluated.
- Without parentheses a printed dependency expression means the same if no right operand mixes in another
  operator, and with distinct names only then (`UnparenthesizedMeaning`).
- Reflowing a paragraph twice equals reflowing it once exactly if no stand-alone `+` from the middle of an
  input line is stranded on a line of its own; single-word first lines do no harm. `StrandedPlus` is a
  paragraph that fails.
- A code listing is not always left alone: a `--` or `====` line inside it opens a block that is reflowed. The
  innermost block stays unreflowed exactly if no such line stands between a delimiter and its match
  (`PassthroughStays`), and then the whole listing comes out unchanged and in one piece (`ReflowFile`).
  `ListingNotKept` is a listing that does not come out: two of its lines are run together.
- A tag keeps the text of its statement character for character (`TagKeepsText`), and taking the tags out of the
  output gives back the words of the file if every bullet is followed by a space (`OutputWords`). A bullet
  without one is cut off from its word (`UnspacedBullet`).
- A `////` line matches the pattern of passthrough delimiters, but counts as a comment before that is tried, so
  it never opens a block (`CommentBlocksAreNone`).
- A reference page can lose lines. Without a
  parameter section it loses those between its include and its body; `LostLines` says when they are blank, and
  `LosesText` is a file that loses a line of text. And if the include is the last line of its block, a page
  that keeps a parameter section, as every structure does, loses the include itself (`DropsInclude`).
  A body that is marked before the include makes lines come twice. `BlockExtracted` says exactly which pages
  come out as they are.
- The docstring of `regSortFeatures` names the explicit sort order as the first key and the category as the
  second. The code makes the category the first.
- Of `promotedto`, `deprecatedby` and `obsoletedby` the first that is present counts, although the warnings say
  that `promotedto` is ignored when `obsoletedby` is there too.
- Every page that `findRefs` returns has an end, so the search of `fixupRefs` for embedding pages never
  applies to its result.

## Model

| member | source | states |
|---|---|---|
| Graphs.ReachLeast | specification/scripts/reg.py:916-970 | `Reach` is the least closed set of graph nodes that holds the start nodes: the meaning of "and everything it depends on" |
| Registry.Registry.MarkTypeRequired | specification/scripts/reg.py:916-970 | unless a cycle can be reached from the type it terminates; requiring adds exactly the types, enums and commands reachable from the type, removing takes out the type alone and always terminates; all other flags stay |
| Registry.Registry.MarkEnumRequired | specification/scripts/reg.py:972-1033 | the same for an enum: requiring adds all that is reachable, removing takes out its chain of aliases |
| Registry.Registry.MarkCmdRequired | specification/scripts/reg.py:1035-1073 | the same for a command; removing follows command aliases only if the generator asks for them |
| Registry.Registry.MarkRequired | specification/scripts/reg.py:1075-1090 | one tag requires, or removes, the closure of what it names |
| Registry.Registry.MarkFeatures | specification/scripts/reg.py:1244-1270 | of the tags of a version or extension exactly those that match API and profile take effect |
| Registry.Registry.FillType | specification/scripts/reg.py:1193-1215 | the loop along the aliases succeeds if and only if the type is undefined, or every alias on the way is defined and the last type has a known category |
| RegistryModel.ResolvesNext | specification/scripts/reg.py:1202-1206 | that condition, stated for all types on the way, holds if and only if it holds one alias further on |
| RegistryMeaning.ResolvesByChain | specification/scripts/reg.py:1202-1211 | a resolution of an alias that comes to an end succeeds if and only if there is a chain of defined types, each an alias of the next, and the last one of one of the eleven categories with an entry |
| RegistryMeaning.FiledTypes | specification/scripts/reg.py:1193-1215 | which references to types are filed: undefined ones, those without alias of a category with an entry, and those whose alias attribute, or else that of the type, starts such a chain |
| Registry.Registry.FillFeatureDictionary | specification/scripts/reg.py:1155-1242 | succeeds if and only if in every matching tag the types resolve and the enums and commands are defined or carry an alias |
| Registry.Registry.CheckUsages | specification/scripts/reg.py:1272-1290 | succeeds if and only if every `usage` of a matching tag names something defined |
| Registry.Registry.RequirePass | specification/scripts/reg.py:1766-1770 | pass 1 succeeds if and only if every feature fills its dictionary and names only known usages; then exactly the closure of the requirements has been added |
| Registry.Registry.RemovePass | specification/scripts/reg.py:1772-1775 | pass 2 succeeds if and only if the usages in matching removals are known; then exactly the closure of the removals has been taken out |
| Registry.Registry.MarkPasses | specification/scripts/reg.py:1766-1775 | passes 1 and 2 succeed if and only if both conditions hold; the required features are then the closure of all requirements less the closure of all removals: removals win |
| RegistryMeaning.RequiredWithNeeds | specification/scripts/reg.py:924-1090 | with nothing removed, in terms of the attributes and tags alone: every defined item that a required one names by `requires`, `alias`, `bitvalues`, a nested type or a nested enum is required; so are the parameter types of commands, the aliases of enums and, if asked for, of commands; and every required item is asked for by a matching tag or so named by another required item |
| RegistryMeaning.RequiredAre | specification/scripts/reg.py:924-1090 | in general: the least complete set of what the requirements ask for, less that of what the removals ask for, which takes in aliases of enums and commands only |
| RegistryMeaning.RootsAsked | specification/scripts/reg.py:1075-1090 | passes 1 and 2 start from exactly the types, enums and commands to which a matching tag refers |
| Graphs.HaltsExactly | specification/scripts/reg.py:916-1073 | a recursion along the edges of a graph that keeps no record of where it has been halts if and only if no node on a cycle can be reached |
| RegistryModel.MarkingHaltsExactly | specification/scripts/reg.py:916-1073 | requiring an item, and removing it, halts if and only if no cycle can be reached from it along the edges that are followed; removing a type always halts |
| RegistryModel.UnguardedSelfReferences | specification/scripts/reg.py:924-970 | which references of an item to itself are followed: through `bitvalues` of a type, the alias of an enum, and that of a command if command aliases are required; with one of them marking does not halt |
| RegistryModel.SelfBitvalues | specification/scripts/reg.py:956-966 | a registry in which requiring a type with itself as `bitvalues` does not halt, and requiring an unrelated type does |
| RegistryModel.MarkingIgnoresOrder | specification/scripts/reg.py:1754-1775 | any permutation of the features list gives the same required features |
| RegistryModel.RequiredTypes | specification/scripts/reg.py:1758-1775 | a type ends up required if and only if it is reachable from a requirement and is not itself named in a removal |
| Registry.Registry.GenerateFeature | specification/scripts/reg.py:1292-1481 | terminates on every graph, cycles included; keeps the invariant that nothing beyond the reachable is declared, that nothing completes twice, and that what completes comes after its dependencies; afterwards the item is declared if it is required; fails only because of an alias of an enumerated type without a group |
| Registry.Registry.DependenciesOf | specification/scripts/reg.py:1340-1367 | exactly the recursive calls that come before the item itself, in their order: alias, requirements, nested types if wanted, nested enums |
| Registry.Registry.EndOf | specification/scripts/reg.py:1369-1449 | an exception if and only if an enumerated type is an alias of something that is no group; skipped if and only if it is no alias and no group; otherwise the follow-up is the `bitvalues` of a bitmask, taken from the group if there is one |
| Registry.Registry.FinishFeature | specification/scripts/reg.py:1468-1481 | once its dependencies are declared the item itself is the next to complete, and its `bitvalues` follow-up is generated after it |
| Registry.Registry.GenerateRequiredInterface | specification/scripts/reg.py:1483-1506 | everything that the tags ask for explicitly is declared; fails only on an unknown extended group or a crashing item |
| Registry.Registry.GeneratePass | specification/scripts/reg.py:1796-1812 | pass 3 succeeds if and only if every extended group is known and no crashing item is reachable; it then declares, and completes exactly once, what is reachable from the explicit requests, in dependency order; an item is emitted if and only if the first feature that reaches it is emitted and it is not skipped |
| RegistryMeaning.DeclaredAre | specification/scripts/reg.py:1331-1506 | in terms of the attributes and tags alone: pass 3 declares the least set of required items that has all that the tags ask for and, with each item, the required items that are generated before it or after it |
| RegistryMeaning.Forced | specification/scripts/reg.py:1492-1503 | the enums that are asked for on their own: those that extend no group, and when redefinition is asked for those that extend a known group which is not required |
| Registry.Registry.ApiGen | specification/scripts/reg.py:1754-1812 | the three passes together, from cleared flags: success if and only if passes 1 and 2 come upon nothing undefined, every extended group is known and no item that is reached crashes; the required set, the declared set, at most one completion an item, its order and its emission |
| RegistryModel.GenerateFollowsMarks | specification/scripts/reg.py:1340-1367 | with full dependency generation every marking edge that does not lead to an enum is also followed by generation, although the two visit the attributes by different rules |
| RegistryModel.RootsAreExplicit | specification/scripts/reg.py:1483-1506 | every type and command that a matching tag requires is asked for explicitly in pass 3 |
| RegistryModel.GenerateReachesMarks | specification/scripts/reg.py:1292-1506 | pass 3 declares every type and command in the closure of the requirements |
| RegistryModel.DeclaredAreRequired | specification/scripts/reg.py:1758-1812 | without removals, with recursive requirements and `bitvalues` on bitmasks only, pass 3 declares a type or command if and only if passes 1 and 2 made it required |
| GenerateTrace.Complete | specification/scripts/reg.py:1468-1476 | completing an item whose dependencies are declared keeps the order of the log even while an enclosing cycle is open |
| GenerateTrace.DependenciesFirst | specification/scripts/reg.py:1331-1367 | if the calls are acyclic apart from self-loops, every dependency of an item has completed before the item is handed to the generator |
| GenerateTrace.EmittedByNext | specification/scripts/reg.py:1801-1812 | one more feature leaves it true that an item is emitted if and only if the first feature to reach it is |
| DependencySyntax.ParserIsGrammar | specification/scripts/parse_dependency.py:137-162 | the parser accepts a token list, as a given parse, if and only if it is the spelling of that parse, dropped leading operators included |
| DependencySyntax.LexedNamesAreWords | specification/scripts/parse_dependency.py:128-129 | every name that is read is a word over letters, digits and `_` |
| DependencyText.ReadsTwo | specification/scripts/parse_dependency.py:128-162 | for all non-empty texts over letters, digits and `_`: each is read as a name, two of them with `+` between as a conjunction, with `,` as a disjunction |
| DependencyText.ReadsJoined | specification/scripts/parse_dependency.py:151-162 | after any text that is read, an operator and a name, with any blanks, join that name to the whole of it: both operators bind to the left |
| DependencyText.ReadsJoinedGroup | specification/scripts/parse_dependency.py:151-162 | and an operator and a text in parentheses join what is in them |
| DependencyText.ReadsGroup | specification/scripts/parse_dependency.py:151-157 | parentheses and blanks around a text change nothing |
| DependencyText.OnlyLegal | specification/scripts/parse_dependency.py:128-146 | which characters may occur, written out |
| DependencyText.NotRead | specification/scripts/parse_dependency.py:128-203 | parse errors: any other character, a blank text, an operator at the end, two expressions side by side |
| Dependency.Stack.ReadAtom | specification/scripts/parse_dependency.py:151-157 | the parse action of an atom pushes exactly the postfix form of the atom, and leaves the rest of the input |
| Dependency.Stack.ReadExpr | specification/scripts/parse_dependency.py:159-160 | the parse actions push exactly the postfix form of the equal-precedence, left-associative tree |
| Dependency.Stack.Evaluate | specification/scripts/parse_dependency.py:171-190 | on any larger stack: the result is the value of the expression on top, exactly its items are consumed, and it fails if and only if some name does not begin with a letter |
| Dependency.EvaluateDependency | specification/scripts/parse_dependency.py:192-203 | compiler correctness: parsing to a stack and evaluating the stack yields the meaning of the infix text, or the error of the parse or of a name |
| DependencyText.NameOutcome | specification/scripts/parse_dependency.py:165-294 | from the characters of a name: its value is its support, its translation the markup, its names itself; an error if it does not begin with a letter |
| DependencyText.TwoNamesOutcome | specification/scripts/parse_dependency.py:165-294 | from the characters: `a+b` is supported if both names are, `a,b` if one is, and both have the names `a` and `b` |
| DependencyText.ChainedOutcome | specification/scripts/parse_dependency.py:151-203 | the same for one more name at the end of any text |
| DependencyText.JoinedOutcome | specification/scripts/parse_dependency.py:165-294 | and for a text in parentheses: value, names and translation of the whole from those of its two parts, with an error if one of them has an error |
| Dependency.Stack.Language | specification/scripts/parse_dependency.py:205-228 | the printed text is the translation of the tree, with parentheses below the root only, and exactly its items are consumed |
| Dependency.DependencyLanguage | specification/scripts/parse_dependency.py:230-246 | the same for a text, with the error cases |
| DependencyText.ParenthesizedText | specification/scripts/parse_dependency.py:215-226 | with parentheses asked for, exactly the operands that are not names are printed in them, the whole is not |
| Dependency.Stack.CollectNames | specification/scripts/parse_dependency.py:266-281 | exactly the names of the expression, and exactly its items are consumed |
| Dependency.DependencyNames | specification/scripts/parse_dependency.py:283-294 | the same for a text, with the error cases |
| DependencyMeaning.PopPostfix | specification/scripts/parse_dependency.py:171-190 | popping one expression off any stack that ends in its postfix form gives back the expression and what was below it |
| DependencyMeaning.PostfixInjective | specification/scripts/parse_dependency.py:118-126 | two expressions build the same stack if and only if they are equal |
| DependencyMeaning.ValueMonotone | specification/scripts/parse_dependency.py:165-190 | supporting more of the names that occur never makes an expression false |
| DependencyMeaning.ValueDependsOnNames | specification/scripts/parse_dependency.py:266-294 | the value depends on the support of the collected names only |
| DependencyMeaning.AllNamesSuffice | specification/scripts/parse_dependency.py:266-294 | an expression is true when all its names are supported |
| DependencyMeaning.WithoutOrAllNeeded | specification/scripts/parse_dependency.py:165-190 | without `,` all of them have to be |
| DependencyPrinting.PrintIsSpelling | specification/scripts/parse_dependency.py:205-228 | whatever the markup, the printed text is the spelling of a fixed list of tokens |
| DependencyPrinting.LexSpell | specification/scripts/parse_dependency.py:128-162 | with identity markup the spelled text is read back as the same tokens |
| DependencyPrinting.ReparseParenthesized | specification/scripts/parse_dependency.py:205-246 | parenthesized text parses to the expression that was printed |
| Dependency.PrintReparse | specification/scripts/parse_dependency.py:230-246 | printing a parsed text in parentheses and parsing again changes nothing |
| DependencyPrinting.ReparseUnparenthesized | specification/scripts/parse_dependency.py:205-246 | unparenthesized text always parses, and to the same stack if and only if every right operand is a name |
| DependencyPrinting.UnparenthesizedChangesMeaning | specification/scripts/parse_dependency.py:205-246 | otherwise the meaning can change: `a+(b,c)` and its reparse have different values for some support |
| DependencyFlattening.UnparenthesizedMeaning | specification/scripts/parse_dependency.py:205-246 | the reparse has the same value for every support if each right operand uses only the operator of its parent; if no name occurs twice, only then |
| DependencyFlattening.FlatSame | specification/scripts/parse_dependency.py:205-228 | the equal-precedence reading of such an expression has its value for every support |
| DependencyFlattening.FlatDiffers | specification/scripts/parse_dependency.py:205-228 | for any other expression with distinct names there is a support that tells the two readings apart |
| DependencyFlattening.RepeatedName | specification/scripts/parse_dependency.py:205-228 | with a repeated name they can agree all the same: `a+(a,a)` |
| DependencyPrinting.CReadsPrinted | specification/scripts/parse_dependency.py:112-118 | under the precedence of C the parenthesized text is read as the same expression |
| ExtDependency.DiGraph.AddEdge | specification/scripts/extdependency.py:38-45 | adds the edge and its end points, and changes nothing else |
| ExtDependency.DiGraph.Descendants | specification/scripts/extdependency.py:51-81 | yields exactly the nodes reachable from the start, each once and without the start, even on cycles |
| ExtDependency.ApiDependencies.Load | specification/scripts/extdependency.py:111-167 | succeeds if and only if every non-empty depends attribute of a supported element can be read; the graph then has exactly the supported elements and the edges of their expressions, version names filtered for extensions only |
| ExtDependency.ApiDependencies.Children | specification/scripts/extdependency.py:185-192 | exactly what is reachable from the extension, or the error for an extension that was not loaded |
| ExtDependency.ChildrenSuffice | specification/scripts/extdependency.py:140-192 | with an extension, its children and all versions supported, the depends expression of every supported extension among them is true |
| ExtDependency.ChildrenNeeded | specification/scripts/extdependency.py:129-192 | without `,` no smaller set will do: every self-sufficient set with the extension holds all its children |
| HandleParents.HandleAncestors | specification/scripts/generator.py:1200-1205 | the walk from a type with no cycle above it yields the chain of its ancestors, nearest first |
| HandleParents.TopLevelAbove | specification/scripts/validitygenerator.py:995-998 | every handle is a top-level handle or below one |
| HandleParents.TopLevelDecide | specification/scripts/validitygenerator.py:995-1002 | a type is above all top-level handles if and only if it is above all handles: dropping the others loses nothing |
| HandleParents.FirstCommonIsNearest | specification/scripts/validitygenerator.py:1009-1017 | the first element of the ordered intersection is the nearest common ancestor; if it is empty there is none |
| HandleParents.NearestIsUnique | specification/scripts/validitygenerator.py:980-1017 | there is at most one nearest common ancestor |
| HandleParents.SelectTops | specification/scripts/validitygenerator.py:987-1002 | keeps exactly the handles none of whose ancestors was supplied |
| HandleParents.TopsAre | specification/scripts/validitygenerator.py:987-1002 | those are all different, so fewer than two are left if and only if no two different handles are top-level |
| HandleParents.UnnamedCommonParent | specification/scripts/validitygenerator.py:980-1017 | the result is a strict ancestor of every input handle and every other common ancestor is above it; None if and only if fewer than two handles are top-level or no common ancestor exists |
| HandleParents.ParentAmongParams | specification/scripts/validitygenerator.py:942-956 | if it meets no cycle before, the walk passes over exactly the ancestors that no parameter has and stops at the first that one has; None if and only if there is none |
| ReflowText.SplitRender | specification/scripts/reflow.py:371-395 | splitting a rendered line gives back its words |
| ReflowPatterns.BulletLines | specification/scripts/reflow.py:98-107 | a line begins with a bullet if and only if it is spaces, one of the bullet tokens and a space right after it |
| ReflowPatterns.SentenceWords | specification/scripts/reflow.py:114-119 | which words end a sentence, abbreviations and initials written out |
| ReflowPatterns.AnchorWord | specification/scripts/reflow.py:229-231 | which words are VUID anchors, by their first characters |
| ReflowPatterns.KindsOfLines | specification/scripts/reflow.py:51-96 | which lines delimit a block, which end a paragraph and which are text, by their characters |
| ReflowPatterns.ValidUsageBlocks | specification/scripts/reflow.py:641-656 | a line that opens a block opens a Valid Usage block if and only if it is the common-block comment, or a reflowed delimiter on the line after the title; such a block is always reflowed |
| ReflowMachine.ReflowState.ReflowPara | specification/scripts/reflow.py:237-397 | the loops of reflowPara compute the layout of the words, and leave the hanging indent it was made with |
| ReflowMachine.ReflowState.FitWord | specification/scripts/reflow.py:309-391 | one word is placed as the layout places it: joined, closing the line, or starting another |
| ReflowPara.LayoutKeepsWords | specification/scripts/reflow.py:253-397 | the output lines hold exactly the words of the paragraph, in order, and say where lines were broken |
| ReflowPara.LayoutWithinMargin | specification/scripts/reflow.py:309-391 | an output line is within the margin or holds a single word, or would but for a last word that is forced on it: a `+`, a VUID anchor, a bullet, or the word after the first bullet |
| ReflowFilling.LinesAreFilled | specification/scripts/reflow.py:309-391 | a line ends only because the next word does not fit, or after a sentence, a `+` or a VUID anchor; and after a sentence or an anchor it goes on only for the exceptions that are listed |
| ReflowFilling.ReflowIndents | specification/scripts/reflow.py:237-397 | the indentation of every output line: that of the first input line, then that of the second, or the column after the bullet if the paragraph is one line that begins with one |
| ReflowPara.ReflowAgain | specification/scripts/reflow.py:237-397 | reflowing the output with the indents left behind changes nothing, if and only if no `+` from inside an input line was stranded |
| ReflowPara.TrailingPlusesAreSafe | specification/scripts/reflow.py:275-331 | the condition holds whenever every `+` ends its input line |
| ReflowPara.StrandedPlus | specification/scripts/reflow.py:275-354 | a paragraph of one line, a `+` between two long words, whose second reflowing at the default margin differs from the first |
| ReflowTags.ReflowKeepsWords | specification/scripts/reflow.py:237-397 | reflowing keeps the sequence of words of any paragraph, blank ones included |
| ReflowMachine.ReflowState.TagPara | specification/scripts/reflow.py:404-467 | the first line gets the next number if and only if it is an untagged statement and the number is at most `maxvu`; all else is unchanged |
| ReflowTagText.TagKeepsText | specification/scripts/reflow.py:447-451 | a tagged line is the bullet, a space, the tag with both names and five or more digits, a space, and what followed the bullet and its spaces in the source, character for character |
| ReflowTagText.OutputWords | specification/scripts/reflow.py:404-477 | if every bullet is followed by a space, the words of the output are those of the input with the assigned tags put in, in the order of their numbers and each after a bullet |
| ReflowTagText.UnspacedBullet | specification/scripts/reflow.py:447-451 | without that space the tag cuts a word in two |
| ReflowTags.TagPositions | specification/scripts/reflow.py:447-461 | in the tagged source the numbers are consecutive, each is used on exactly one line, in the order of the lines, and all other lines are unchanged |
| ReflowTags.AnchorsDiffer | specification/scripts/reflow.py:447-451 | tags with different numbers are different texts, whatever the names in them |
| ReflowMachine.ReflowState.EmitPara | specification/scripts/reflow.py:399-477 | what is written is the layout of the tagged paragraph, or the paragraph verbatim where the block is not reflowed; the accumulator and its indents are reset |
| ReflowMachine.ReflowState.EndPara | specification/scripts/reflow.py:479-493 | the paragraph is written, then the line unchanged |
| ReflowMachine.ReflowState.EndBlock | specification/scripts/reflow.py:495-537 | the three stacks are popped together if the line began the innermost block and pushed together otherwise; the bottom entry is never popped |
| ReflowParagraphs.CloseForgets | specification/scripts/reflow.py:503-517 | closing an open block forgets the name that tags are made with |
| ReflowParagraphs.NameStays | specification/scripts/reflow.py:655-690 | the first include after that sets it, for all lines up to the next such closing |
| ReflowMachine.ReflowState.AddLine | specification/scripts/reflow.py:539-577 | the line joins or starts a paragraph; nothing is lost or reordered, and in a block that is not reflowed the text stays verbatim |
| ReflowParagraphs.ParagraphRead | specification/scripts/reflow.py:539-577 | lines of text, without further bullets and with an indentation that does not fall below the hanging one, are accumulated as one paragraph, with the indents of the first line and of the first that is indented further |
| ReflowParagraphs.ParagraphEnds | specification/scripts/reflow.py:539-577 | less indentation or a bullet writes it out, laid out with those indents, and starts another |
| ReflowParagraphs.OtherLineEnds | specification/scripts/reflow.py:479-537 | any other line does, and follows it unchanged |
| ReflowParagraphs.WholeParagraph | specification/scripts/reflow.py:237-746 | a file that is one paragraph comes out as its layout with those indents |
| ReflowMachine.ReflowState.ProcessLine | specification/scripts/reflow.py:626-729 | one step of the dispatch: the line is accounted for, written verbatim if the innermost block is not reflowed, and ends the paragraph if it is a delimiter; a bullet starts a paragraph; the open blocks become those after the line |
| ReflowBlocks.PassthroughStays | specification/scripts/reflow.py:495-729 | between the line that opens a passthrough block and the next line like it, the innermost block is never reflowed, if and only if no delimiter of a reflowed block and no common-block comment stands in between |
| ReflowBlocks.ListingWithOpenBlock | specification/scripts/reflow.py:641-712 | with the patterns of the script, after `----` and `--` the text is reflowed although the listing is still open |
| ReflowTrace.ListingRelaid | specification/scripts/reflow.py:237-397 | and two lines of such a listing are run together |
| ReflowListing.ListingNotKept | specification/scripts/reflow.py:641-746 | what the script writes for that file, with or without numbering: four lines, in which the listing of five does not stand |
| ReflowBlocks.CommentBlocksAreNone | specification/scripts/reflow.py:48-96 | a `////` line matches the passthrough pattern and is nevertheless treated as a comment |
| ReflowTrace.BlockKept | specification/scripts/reflow.py:626-729 | over a whole run: a passthrough block with nothing to be reflowed inside stands in the output unchanged and in one piece, at the place where its first line belongs |
| ReflowTrace.AllTagged | specification/scripts/reflow.py:404-467 | over a whole run: if numbers are left in the end, every untagged statement of a Valid Usage block has been given one |
| ReflowMachine.ReflowFile | specification/scripts/reflow.py:587-746 | the output has the words of the tagged source, and is the tagged source line for line if reflowing is off; without tagging the tagged source is the input; if every bullet is followed by a space, the words of the input are those of the output without the assigned tags; no assigned number exceeds `maxvu`; every passthrough block with nothing to be reflowed inside stands in it unchanged; every statement is tagged if numbers are left; and output and next number are exactly those of a pure function of the lines, with its tag names, indents and paragraphs |
| ReflowMachine.ReflowFiles | specification/scripts/reflow.py:743-753 | over all files the numbering continues from one file to the next and stays within `maxvu`; passthrough blocks are kept and statements tagged in each; without tagging every file keeps its words, and its lines if reflowing is off |
| RefPageScan.OutsideNoPage | specification/scripts/reflib.py:452-463 | outside a block there is no current page |
| RefPageScan.LastIsLast | specification/scripts/reflib.py:465-650 | the line that determines a field of a page is the last one that sets it |
| RefPageText.MarksAre | specification/scripts/reflib.py:535-650 | from the lines while a page is current: it begins after the delimiter that opens its block and ends before the one that closes it; its validity is at the last error marker or validity include, its body at the last body marker |
| RefPageText.TypeIs | specification/scripts/reflib.py:515-600 | the last line that names the page or includes its text or validity gives the type, an include by its category, an opening line by its attribute |
| RefPageText.IncludeWithEndifs | specification/scripts/reflib.py:567-620 | the include of a page is a line that includes its text, or an endif that follows one with nothing but endifs in between |
| RefPages.ReadAttributes | specification/scripts/reflib.py:484-509 | of the attributes of an open block the last of each key counts |
| RefPages.FindRefs | specification/scripts/reflib.py:436-661 | fails if and only if a block starts inside another or the block of a page is not closed; otherwise there is one separate page object for every name opened, each field set by the last line that sets it while that page is current |
| RefPages.NoteLine | specification/scripts/reflib.py:535-650 | one line inside a block changes the current page as specified, an endif moving the include it directly follows |
| RefPageScan.PagesAreComplete | specification/scripts/reflib.py:436-661 | every page found has a beginning, an end, a description and a type |
| RefPageScan.BlockOf | specification/scripts/reflib.py:465-560 | a page opened once is the current page exactly from its opening line to its second delimiter |
| RefPageScan.PageOpenedOnce | specification/scripts/reflib.py:465-661 | such a page begins after the first delimiter and ends before the second, with its include, body and validity lines in between, so begin <= include <= end if and only if the include comes after the first delimiter |
| RefPageSections.FindNextPara | specification/scripts/reflib.py:210-226 | the first non-blank line after the first blank line, or the last line of the file |
| RefPageSections.FixupPage | specification/scripts/reflib.py:276-358 | the fields of a page after its sections have been located, clamped and trimmed |
| RefPageText.SectionsAre | specification/scripts/reflib.py:317-358 | from the lines of the file: the parameter section starts at the first paragraph after the include, or the end of the page; which pages keep one; the body is the paragraph after it, one further for a feature structure, or the marked one between section and end |
| RefPageSections.FixupRefs | specification/scripts/reflib.py:269-364 | every page is fixed up once, in any order, independently of the others |
| RefPageSections.FixupOrders | specification/scripts/reflib.py:317-358 | if the include is not after the end, then begin, include and end stay, and include <= param <= body <= end if a parameter section remains, with include < param unless the include is the last line |
| RefPageSections.RemapIncludes | specification/scripts/genRef.py:189-221 | the lines are remapped one for one, failing if and only if an include has an empty path |
| RefPageSections.RemappedTogether | specification/scripts/genRef.py:189-221 | remapping in pieces is remapping the whole |
| RefPageSections.EmitPage | specification/scripts/genRef.py:445-484 | the three pieces extracted from a page, or why there are none |
| RefPageText.PiecesAre | specification/scripts/genRef.py:445-473 | with a parameter section the pieces are the lines up to it, those of it under the heading of its type, and those from the body to the end, remapped |
| RefPageText.PiecesWithoutSection | specification/scripts/genRef.py:445-473 | without one, those up to the include and those from the body |
| RefPageText.RelocatedLine | specification/scripts/genRef.py:189-221 | an include of a path is one of the relocated path, unless the path begins with `{`; an empty path is an error |
| RefPageText.OtherLine | specification/scripts/genRef.py:189-221 | every other line stays |
| RefPageText.PageTypes | specification/scripts/genRef.py:25-46 | which types of pages are extracted by their include, which as they are, and which have a parameter section, by name |
| RefPageText.ExtractedAsItIs | specification/scripts/genRef.py:445-484 | a page that is extracted as it is has all lines from its beginning to its end, unchanged |
| RefPageSections.WholePage | specification/scripts/genRef.py:445-473 | with a parameter section the pieces in order are exactly the lines from begin to end, remapped, if and only if the section does not begin before the page and the body is not the line of the include |
| RefPageSections.PageWithoutParameters | specification/scripts/genRef.py:449-473 | without one they are if and only if the body directly follows the include (or the beginning, should that come later), or include and body are both the last line |
| RefPageSections.BodyFollows | specification/scripts/reflib.py:317-358 | on the page as findRefs leaves it, with the include before its last line: it does, unless the block ends the file, if and only if the line after the include is the last of the page or the marked body; for an inferred body only the former |
| RefPageSections.LosesText | specification/scripts/reflib.py:317-358 | a file with one page whose line after the include is not blank and comes before the body |
| RefPageSections.DropsInclude | specification/scripts/reflib.py:324-345 | a file with one page, of a structure whose include is the last line of its block: nothing at all is extracted |
| RefPageSections.NothingLostInside | specification/scripts/reflib.py:317-358 | when nothing of a page is lost: with the include before the last line, if there is a parameter section or the body directly follows; with the include on the last line, if there is no parameter section and no body marked before it |
| RefPageSections.PageExtracted | specification/scripts/genRef.py:445-473 | the pieces of an API page are the page if and only if nothing is lost |
| RefPageSections.LostLines | specification/scripts/reflib.py:317-358 | for an inferred body the lines between include and body are all blank if and only if there are none or a blank line follows the include |
| RefPageSections.BlockExtracted | specification/scripts/genRef.py:671-713 | from file to page, for any page opened once with an include: what is extracted is what stands between its delimiters if and only if nothing is lost; for an include inside the block that is: a parameter section, or a body that directly follows, if the include is before the last line, and no parameter section and no marked body if it is on it |
| RefPageText.SectionExtracted | specification/scripts/genRef.py:671-713 | from file to page, with a parameter section and no marked body: the extracted section holds the lines from its first to where the next paragraph starts, one further for a feature structure, and the description begins there or at the end of the page |
| RefPageSections.EmitPages | specification/scripts/genRef.py:679-713 | every page is extracted, or the run fails at one that cannot be |
| RefPageSections.GenPages | specification/scripts/genRef.py:671-713 | findRefs, fixupRefs and emitPage together: fails if and only if the blocks are not well formed or some page cannot be extracted; otherwise there is one result for every page named in the file, that of its located sections |
| Enums.OffsetsDistinct | specification/scripts/generator.py:498-513 | two extension offsets give the same value if and only if offset, extension and direction agree |
| Enums.OffsetsInRange | specification/scripts/generator.py:498-513 | all offsets of an extension are in the range of a C enum if and only if its number is at most 1147483 |
| Enums.OffsetsCount | specification/scripts/generator.py:498-513 | the values count up from 1000000000 by one an offset and by a thousand an extension, or down from the negative |
| Enums.BitsDouble | specification/scripts/generator.py:487-497 | bit position 0 is 1, and each further one twice the one before |
| Enums.CheckDuplicateEnums | specification/scripts/generator.py:530-583 | fails if and only if two enumerants, each the first of its name, have the same number; keeps exactly the first of each name |
| Enums.WidenExtremes | specification/scripts/generator.py:776-786 | one more enumerant leaves the running minimum and maximum true of all that do not extend the enum |
| Enums.BuildEnum | specification/scripts/generator.py:709-791 | succeeds if and only if there is no such clash and all numbers fit 32 bits; declares the numeric enumerants, then the aliases, and finds the true extremes |
| Enums.DeclaredAre | specification/scripts/generator.py:740-775 | every declaration is that of a required enumerant, the first of its name |
| Enums.FitsExactly | specification/scripts/generator.py:709-775 | the range that numbers have to fit, written out |
| Enums.DeclarationsDistinct | specification/scripts/generator.py:709-791 | the declarations have distinct names and distinct numbers, and no alias comes before a number |
| FeatureSort.SortIsStable | specification/scripts/generator.py:102-112 | one sort orders by its key and keeps the order of equal keys |
| FeatureSort.SortThen | specification/scripts/generator.py:102-112 | sorting by one more key makes it the most significant one |
| FeatureSort.SortFeatures | specification/scripts/generator.py:102-112 | the result is a permutation |
| FeatureSort.FeaturesSorted | specification/scripts/generator.py:55-112 | the result is in lexicographic order of category, sort order, version and extension number |
| FeatureSort.SortedByKind | specification/scripts/generator.py:55-112 | the same with the categories written out: versions first, then those of safety-critical APIs, then ARB, KHR and OES extensions, then the others |
| FeatureSort.TiedMeans | specification/scripts/generator.py:55-112 | which features tie |
| FeatureSort.TiesKeepOrder | specification/scripts/generator.py:102-112 | features that tie in all four keep their original order |
| PagePairs.AllPagePairs | specification/scripts/pdf_chapter_diff.py:304-345 | the pairs that are left once half pairs covered by full pairs and repetitions are dropped |
| PagePairs.UncoveredElements | specification/scripts/pdf_chapter_diff.py:330-343 | which pairs are left, each once |
| PagePairs.NoPageLost | specification/scripts/pdf_chapter_diff.py:304-345 | every page of either document is still in some pair, and no pair occurs twice |
| PagePairs.SequenceGapFinder.ProcessAndGetGap | specification/scripts/pdf_chapter_diff.py:348-362 | the numbers skipped since the last page, None if and only if there are none |
| PagePairs.ZipColumns | specification/scripts/pdf_chapter_diff.py:365-373 | zipping two lists keeps each of them as its column |
| PagePairs.FillPairGaps | specification/scripts/pdf_chapter_diff.py:376-398 | fails if and only if a column is not in order; otherwise each pair is preceded by the pages missing since the one before, the k-th of one document paired with the k-th of the other |
| PagePairs.FilledInPairs | specification/scripts/pdf_chapter_diff.py:365-398 | before each pair stand as many pairs as the longer of its two gaps has pages; the k-th of them pairs the k-th page missing in one document with the k-th missing in the other, and is a half pair only past the end of the shorter gap |
| PagePairs.ColumnsFilled | specification/scripts/pdf_chapter_diff.py:386-398 | each column of the result is the filled column of the input, independently of the other column |
| PagePairs.FillHasNoGaps | specification/scripts/pdf_chapter_diff.py:376-398 | a filled column never falls and never rises by more than one |
| PagePairs.FillAddsMissing | specification/scripts/pdf_chapter_diff.py:376-398 | filling adds each missing number between the first and the last exactly once, and nothing else |
| PagePairs.PairsStay | specification/scripts/pdf_chapter_diff.py:386-398 | the input is a subsequence of the result |
| PagePairs.OrderExactly | specification/scripts/pdf_chapter_diff.py:330-384 | the pairs that the first pass leaves pass the assertion of the second if and only if the pages of those pairs do not fall |
| PagePairs.OrderStays | specification/scripts/pdf_chapter_diff.py:330-384 | which they do not if those of all pairs do not |
| PagePairs.DisorderDropped | specification/scripts/pdf_chapter_diff.py:320-343 | pairs out of order of which only pairs in order are left |
| PagePairs.ComputePagePairs | specification/scripts/pdf_chapter_diff.py:429-431 | the two passes together: when they fail, and what they make of the pairs |
| PagePairs.PagesComputed | specification/scripts/pdf_chapter_diff.py:429-431 | each column of the result goes up without gaps through exactly the numbers from the least to the greatest page of that document: no page is lost and none is missing |
| Appendix.LoadExtensions | specification/scripts/extensionmetadocgenerator.py:81-100 | fails if and only if the attribute that counts has an unrecognized value; otherwise every extension has the status its attributes give it |
| Appendix.StatusMeans | specification/scripts/extensionmetadocgenerator.py:81-100 | what a status tells: which attribute counted, and whether its value has the prefix of a version, only that of an extension, or is empty |
| Appendix.HomesAgree | specification/scripts/extensionmetadocgenerator.py:81-100 | with non-empty name prefixes the appendix chosen by the status is the one the attributes call for |
| Appendix.HomeCases | specification/scripts/extensionmetadocgenerator.py:81-100 | the first of the three attributes that is present decides: deprecated if its value is empty or defined; without any, provisional or current |
| Appendix.InhabitantAt | specification/scripts/extensionmetadocgenerator.py:709-741 | in an appendix the extensions stand in the order given |
| Appendix.ConditionalContributes | specification/scripts/extensionmetadocgenerator.py:533-560 | inside any asciidoc conditionals, the text lets its content through if and only if the extension is defined and the condition applies, and closes what it opens |
| Appendix.AppendixFiles.WriteExtension | specification/scripts/extensionmetadocgenerator.py:717-741 | which text goes to which of the five files |
| Appendix.AppendixFiles.EndFile | specification/scripts/extensionmetadocgenerator.py:709-744 | for every choice of defined attributes, the files let through the extensions at home in them |
| Appendix.Partition | specification/scripts/extensionmetadocgenerator.py:709-741 | from the attributes of the extensions to the processed files: each defined extension is included once in the appendix that its attributes call for and nowhere else, each undefined one nowhere, whatever attributes are defined |
| Appendix.GuardsMatch | specification/scripts/extensionmetadocgenerator.py:718-744 | `HAS_DEPRECATED_EXTENSIONS` and `HAS_PROVISIONAL_EXTENSIONS` are set if and only if the appendix is not empty |
| VideoMode.FindMode | src/common/gfxwrapper_opengl.c:1504-1529 | the first lexicographic minimum of size error and refresh error among the acceptable modes, None if there is none |
| VideoMode.BestIsNearest | src/common/gfxwrapper_opengl.c:1504-1529 | no eligible mode is nearer in size, none as near has a nearer refresh rate, and none before it is as good |
| VideoMode.ExactMode | src/common/gfxwrapper_opengl.c:1504-1529 | if a mode with exactly the wanted size and rate is eligible, one like it is found |
| VideoMode.ValidOutputMode | src/common/gfxwrapper_opengl.c:1861-1870 | whether the primary output has the mode |
| VideoMode.SafeDifferences | src/common/gfxwrapper_opengl.c:1519-1521 | the size error cannot overflow for differences up to a bound if and only if the bound is at most 32767 |
| VideoMode.SomeModeFound | src/common/gfxwrapper_opengl.c:1846-1888 | within that bound a mode is found if and only if one is eligible |
| HexText.ToHex | src/common/hex_and_handles.h:24-36 | every placeholder is overwritten: the text is `0x` and the digits of the bytes, last byte first |
| HexText.DigitsRead | src/common/hex_and_handles.h:24-36 | read back in base 16 the digits are the sum of data[i] * 256^i |
| HexText.DigitsInjective | src/common/hex_and_handles.h:24-36 | buffers of the same size with the same text are equal |

## Left out

- XML parsing, files, logging, command lines, git: I/O. A logged message counts only where it raises; what was written before an exception is not modelled.
- Registry dictionaries: names are plain (`addElementInfo` never makes a key with an API name), the three dictionaries are one map by kind and name, `matchAPIProfile` is a boolean for each tag, and every element has the name or text that is looked up.
- Enumerants inside a group: marking them required before the group is generated, and removing them from it.
- Registry.Registry.FillFeatureDictionary: of the feature dictionary and of the validity lists only the exceptions are modelled, not the contents. An enumerant with an extension name but without a list of supported APIs, also an exception, is left out, and so are exceptions that an output generator raises.
- `stripNonmatchingAPIs`, `mergeAPIs`, `stripUnsupportedAPIs` and the passes over SPIR-V, formats and synchronization tables: independent filters.
- Registry.Registry.ApiGen: asks that no recursion in passes 1 and 2 comes upon a cycle, also one that an exception raised before would have kept it from.
- GenerateTrace.DependenciesFirst: needs calls that are acyclic apart from self-loops; on other graphs an item completes after each dependency that does not lead back to it.
- The pyparsing library: its behaviour on this grammar is given by hand, an operator without a following atom failing the parse.
- `leafMarkupC` and the asciidoc link macros: leaf markup is any function from names to text.
- `markupTraverse` and `dependencyMarkup` (parse_dependency.py:296-340): a second grammar, used by nothing modelled here.
- DependencyFlattening.UnparenthesizedMeaning: that the condition is necessary is stated for distinct names; with repeated names two readings can agree by absorption, as in `RepeatedName`.
- ExtDependency.ChildrenNeeded: assumes that features are named like versions and extensions are not; otherwise a feature's edges lead to names that no extension needs.
- HandleParents.UnnamedCommonParent: asks that no cycle lies above the handles, since the walk would not end. Parameters that are equal count once, as dictionary keys do.
- Wording of validity statements in validitygenerator.py: prose.
- Reflow patterns: white space is the six ASCII characters of `ReflowText.IsWhite`; further separators that Python splits at are left out. The laws hold for any patterns; those of the script are written out for bullets, sentence ends, VUID anchors and the lines that end paragraphs or delimit blocks, those of includes and parameter names are not. `-check` and the list of known VUIDs are left out, and so is a `nextvu` without a `maxvu`, a type error in the source.
- RefPageText.SectionExtracted: pages with a marked body are covered by `SectionsAre`.
- Reference pages: aliases, cross references, the spec and anchor attributes, warnings, the default description and the rewriting of cross-reference links; they do not affect which lines are extracted. Unescaping of quotes in the description is left out. Relocating a path is any function.
- RefPageSections.GenPages: every page is in the build; the list of APIs that selects the pages is left out, and so are the pages that are generated for enums and flags without a block of their own.
- Enums.BuildEnum: every enumerant has one of value, bitpos, offset or alias; comments, protection and the bit width other than 32 are left out. `buildEnumCDecl_Bitmask` is left out.
- FeatureSort.SortFeatures: the list is sorted as a value, not in place.
- PagePairs.AllPagePairs: the pairs of each section are given; how sections are matched is left out.
- Appendix.Partition: the prefixes of version and extension names are not empty, and no two extensions have the same name.
- Appendix.AppendixFiles.EndFile: the order of extensions is given; include guards, headers and tables of contents are left out.
- VideoMode.FindMode: refresh rates are real numbers, and it asks that the integer arithmetic on eligible modes does not overflow, which would be undefined behaviour. Switching modes is left out.
- `FileSysUtilsParsePathList`, `add_nested_title`, `resolveDeprecationChain`: they do not do what their callers expect, so there is nothing to state beyond their text.
