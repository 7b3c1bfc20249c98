# ContainerHive core algorithms: model and proofs

ContainerHive builds trees of container images. This project models, in Dafny, the parts that
decide what is built, in which order, under which tag and by which job, and proves what each of
them promises. `dafny verify dfyconfig.toml` checks everything.

- **Build graph.** `Digraphs` holds the mathematics of build orders, `DependencyGraph` the graph
  object with Kahn's algorithm, `Depths` the layering used for CI stages, `Pipeline` its
  use on a project, `ImageGraph` the scan of a project and the merge with its declared dependencies,
  `VariantGraph` the finer graph of images and variants with its projection onto the image graph,
  `VariantRefinement` the converse of that projection, and `VariantNames` which names keep it acyclic.
  `EdgeMeaning` says which edges there are in terms of the fields of images and variants.
- **Change detection.** `Changes` holds the worklist closure and the classification of files,
  `ChangeSets` the detection, the trigger directories and the rewriting of filters; `Ownership` says
  what is detected in terms of the configuration and of path components.
- **Tag ranges.** `Versions`, `TagRanges`, `TagGeneration` and `TagPipeline` follow a version list
  from parsing to rendered tags, `RangeMeaning` says what that gives in terms of the
  configuration, and `TagMerge` merges the tags into an image.
- **Semantic tags.** `SemanticTags` is the parser and printer, `SemanticOrder` the lower variants
  and the comparison, `NumberOrder` what it means for the digits, `Aliases` and `ImageAliases` the choice of alias targets.
- **Version cache.** `VersionCache` is the cache object and the runs of one process after another;
  `VersionFlights` is the same code as a machine of small steps with any number of callers, other
  processes, a clock that may move either way, and shared flights; `ForcedRefresh` is about forced
  calls, and `CacheExpiry` about how long what was fetched is served.
- **Smaller cores.** `Shards` (partition of tags over CI jobs), `ShellQuote` (quoting against a
  lexer for the POSIX shell), `LineBuffer` and `LogWriter` (line splitting), `SbomPool` (the worker
  pool as a protocol).

Conventions. Map iteration order is arbitrary: a loop over a map takes its keys in any order, and
results hold for all orders. Library sorts are functions that are pinned down by being sorted and a
permutation (`Ordering.SortedUnique`). Version parsing, template rendering, glob matching, path
cleaning and hashing are parameters about which nothing is assumed; the outcomes of fetches, writes
and clock readings are arguments of the steps. Machine integers are unbounded except where the
source converts or saturates: majors and minors as int64 in `TagGeneration` and `TagRanges`, numbers
at the int range in `SemanticOrder`, and the 32-bit divisor in `Shards`.

Where code and documentation disagree, the model follows the code: `SetForceRefresh` is documented
as making every later call refetch, but a forced call may join the flight of an unforced one and
return a cached entry (`ForcedRefresh.ForcedCallMayJoin`). `ForcedRefetchIff` says exactly when it
refetches.

What the proofs bring out besides:

- Names of images and variants may contain a slash, and then two images can share a node of the
  variant graph: a with variant b/c, and a/b with variant c (`VariantNames.ImageNamesAreNotEnough`).
  An acyclic image graph then need not give an acyclic variant graph; `VariantNames.SafeIffUnambiguous`
  says that shared nodes are exactly what can go wrong. That no image is named like a variant node is
  enough for variant names without a slash (`VariantGraph.UnambiguousIff`), but not in general.
- The topological sort compares counts, so an edge source that is no node can hide a node that
  cannot be built (`Digraphs.CountDecides`, with an example). The scanners register all sources.
- A shard total is only checked to be positive; for multiples of 2^32 the owner computation divides
  by zero (`Shards.OwnsDefinedIff`). For all other totals, the type `Shards.Total`, the shards are a
  partition.
- Lower variants of a tag with metadata but no patch do not parse (`SemanticOrder.LowerVariantsChain`),
  majors from 2^63 on can defeat the gap guard (`TagGeneration.GuardKeepsReachedIff` says when), and a
  latest alias with an empty name is an alias for nothing (`ImageAliases.AliasesPointToTags`).

## Model

| member | source | states |
|---|---|---|
| DependencyGraph.Graph.AddImage | internal/dependency/graph.go:25-27 | Registers the name and changes nothing else. |
| DependencyGraph.Graph.AddDependency | internal/dependency/graph.go:32-37 | Adds exactly one edge, once however often it is added; neither end is registered. |
| DependencyGraph.Graph.Dependents | internal/dependency/graph.go:67-78 | Exactly the names that list the given one among their dependencies, each once. |
| DependencyGraph.Graph.TopologicalSort | internal/dependency/graph.go:92-143 | The order that always takes the smallest name that is ready, for every iteration order of the maps; it fails exactly when that order does not have as many entries as there are nodes, and the error carries both counts. |
| DependencyGraph.Kahn | internal/dependency/graph.go:93-133 | The loop over degrees and the sorted queue refines the greedy order: degrees count the unmet dependencies and the queue is the sorted set of ready names throughout. |
| Digraphs.BuildOrderSucceeds | internal/dependency/graph.go:135-141 | With every edge source registered, sorting succeeds if and only if there is no edge to an unregistered name and no cycle; the result is then a duplicate-free listing of all nodes, dependencies first. |
| Digraphs.BuildOrderComplete | internal/dependency/graph.go:92-143 | On any graph the names that get built are exactly those from which neither a cycle nor an unknown name can be reached. |
| Digraphs.BuildOrderLexLeast | internal/dependency/graph.go:114-133 | Of all valid build orders the computed one is the lexicographically least. |
| Digraphs.BuildOrderCount | internal/dependency/graph.go:135-141 | What the final length comparison sees on any graph: the number of buildable names, unregistered sources included. |
| Digraphs.CountDecides | internal/dependency/graph.go:135-141 | On any graph, a sort that succeeds has found a build order if and only if no unregistered source could be built. |
| Digraphs.UnregisteredSourceFoolsTheCount | internal/dependency/graph.go:135-141 | It does happen that it has not: a graph on which the count is right although a node is missing from the order. |
| Digraphs.StuckIsDoomed | internal/dependency/graph.go:92-143 | A set of names each of which waits for a member of the set or for an unknown name only has members that reach a cycle or an unknown name. |
| Depths.CalculateDepths | pkg/ci/context.go:440-480 | Terminates on every input. Each image that can be resolved gets the length of its longest dependency chain; all others share one depth, directly above the resolved ones. |
| Depths.DepthIsLongestChain | pkg/ci/context.go:447-476 | An image first resolved in round k has a chain of k dependencies and no longer one. |
| Depths.LeftoverDoomed | pkg/ci/context.go:459-470 | A round without progress leaves exactly images that reach a cycle or an unknown name. |
| Depths.OrderImages | pkg/ci/context.go:273-279 | Lists every image once with its depth, by rising depth and within one depth strictly by name; this is a build order exactly where the topological sort of the same graph succeeds; otherwise some listed image is unbuildable. |
| Depths.DepthOrderIsBuildOrder | pkg/ci/context.go:273-279 | The two algorithms agree: when the topological sort succeeds, every list sorted by (depth, name) is a build order. |
| Pipeline.PipelineImages | pkg/ci/context.go:184-279 | From project to pipeline order: the graph fails exactly on a project with a problem, which is named; otherwise every image is listed once by depth and strictly by name, with the length of its longest chain as depth if it can be built, a build order of the image graph exactly where its topological sort succeeds, and with an unbuildable image otherwise. |
| Pipeline.LayeredGraphIsImageGraph | pkg/ci/context.go:199-209 | The graph that the layering sees through the sorted lists has the nodes and edges of the merged graph. |
| Digraphs.SameOrders | internal/dependency/graph.go:92-143 | Graphs that differ only in the order of their lists have the same topological sort, build orders and unbuildable names. |
| Project.BackendParentRefs | internal/dependency/parent.go:8-19 | The nonempty backend parents of the image and of all its variants, whatever the map order. |
| ImageGraph.ScanProjectSource | internal/dependency/scanner.go:48-75 | The nodes are the image names and the edges exactly those that some entry point or backend parent asks for. |
| ImageGraph.DependOnBackendParent | internal/dependency/scanner.go:79-93 | Adds the edge to a parent that names another image of the graph, and nothing otherwise. |
| ImageGraph.AddParentDependency | internal/dependency/resolve.go:47-70 | An error exactly when the parent is a reference that names no image or is malformed; otherwise the declared edge and nothing else. |
| ImageGraph.BuildDependencyGraph | internal/dependency/resolve.go:12-41 | Succeeds exactly for projects without a problem; the result is the scanned graph with exactly the declared edges added, and the scanned graph is untouched. A failure reports a problem the project has. |
| ImageGraph.ScanAndBuild | pkg/changes/changes.go:218-224 | Scan and merge give the image graph: all image names and exactly the merged edges. |
| VariantGraph.ResolveVariantTarget | internal/dependency/variant_graph.go:114-126 | The node of a variant whose suffix is a longest one that ends the tag, or the base image when no suffix does. |
| VariantGraph.TargetUniqueIff | internal/dependency/variant_graph.go:114-126 | Every tag of an image name has one target, whatever the map order, if and only if no two variants of different names share a nonempty suffix. |
| VariantGraph.AddVariantEdge | internal/dependency/variant_graph.go:104-109 | One edge between two different nodes, the second of them known; otherwise nothing. |
| VariantGraph.ScanProjectVariants | internal/dependency/variant_graph.go:24-55 | Every reference of every image and variant is answered by an edge to a target it may resolve to, and every edge answers such a reference. |
| VariantGraph.EdgeProjects | internal/dependency/variant_graph.go:24-126 | Every edge of the variant graph goes from a variant to its own base image or lies over an edge of the image graph. |
| VariantRefinement.RefinesImageGraph | internal/dependency/variant_graph.go:24-126 | For an accepted project without shared nodes, one image depends on another in the image graph if and only if some node of the one depends on some node of the other. |
| VariantRefinement.EdgeClaim | internal/dependency/scanner.go:48-108 | Every edge of the image graph comes from a reference that the variant scan of the same image asks for as well. |
| VariantGraph.PathProjects | internal/dependency/variant_graph.go:24-126 | Every path of the variant graph lies over a path of the image graph that stands still only on a step from a variant to its base. |
| VariantGraph.VariantGraphAcyclic | internal/dependency/variant_graph.go:24-126 | For an accepted project whose node names each belong to one image, an acyclic image graph gives an acyclic variant graph. |
| VariantGraph.VariantsSortWhenImagesSort | internal/dependency/variant_graph.go:24-55 | Then, if the images can be sorted, so can all images and variants together. |
| VariantGraph.UnambiguousIff | internal/dependency/variant_graph.go:15-17 | For variant names without a slash, node names are unambiguous exactly when no image is named like a variant node. |
| VariantNames.ImageNamesAreNotEnough | internal/dependency/variant_graph.go:15-17 | With a slash it is not so: an image a with a variant b/c and an image a/b with a variant c, neither named like a variant node, share a node and are not safe in the sense of the next row. |
| VariantNames.SafeIffUnambiguous | internal/dependency/variant_graph.go:15-126 | For given image and variant names, every accepted project with an acyclic image graph has an acyclic variant graph if and only if no node name belongs to two images. |
| VariantNames.TrapVariantGraph | internal/dependency/variant_graph.go:61-126 | For two images that share a node there is a project of the same names whose variant graph has a cycle: one image depends on the node, and its own variant of that node on the image. |
| VariantNames.TrapEdges | internal/dependency/scanner.go:48-108 | The image graph of that project has a single edge. |
| EdgeMeaning.ParentIff | internal/dependency/parent.go:23-31 | The parent of an image is its nix parent on the nix backend, its chisel parent on the chisel backend, and none on any other. |
| EdgeMeaning.ParentsIff | internal/dependency/parent.go:8-53 | With those of the variants: the variant's own parent for its own backend or, where it names none, that of the image. |
| EdgeMeaning.ParseIff | internal/dependency/scanner.go:96-108 | The scan reads exactly the texts __hive__/b:t with a nonempty b and no colon in t, as the tag t of b. |
| EdgeMeaning.AcceptedIff | internal/dependency/resolve.go:12-70 | A project is accepted exactly if every declared dependency is an image and every parent in use that begins like a reference names a nonempty tag of one. |
| EdgeMeaning.ImageEdgeIff | internal/dependency/resolve.go:12-41 | In terms of the fields: in an accepted project, an image depends on exactly its declared dependencies, the other images its Dockerfiles refer to, and the other images that its and its variants' parents in use name. |
| EdgeMeaning.BackendParentEdge | internal/dependency/parent.go:23-31 | Of any project: an image on the nix backend depends on the image of the project that its nix parent names, and one on the chisel backend on that of its chisel parent. |
| EdgeMeaning.VariantParentEdge | internal/dependency/parent.go:35-53 | The same for the parents of variants, own or inherited, on their own backend or that of the image. |
| EdgeMeaning.ClaimIff | internal/dependency/variant_graph.go:24-126 | What the variant scan asks for, node by node, in terms of the fields: references of the Dockerfiles, parents, declared dependencies for the base node, and the base node for a variant that uses the placeholder. |
| EdgeMeaning.NodeEdgeMeaning | internal/dependency/variant_graph.go:61-126 | Every edge of the variant graph answers such a wish of its node; a wish for a known node is answered always, and one for a tag of another image if no node is shared. |
| Changes.Expand | internal/changes/closure.go:7-26 | Terminates and returns, sorted and once each, exactly the names reachable from the start. |
| Changes.Classify | internal/changes/classify.go:68-110 | Fails exactly on an invalid pattern and names one; otherwise the changed images are exactly those some relevant file touches, and the first file that rebuilds everything is reported. |
| Changes.ImagesOwning | internal/changes/classify.go:137-148 | The images with a directory that contains the file. |
| ChangeSets.ImageDirs | pkg/changes/changes.go:142-152 | Each name with its images' directories, sorted. |
| ChangeSets.TriggerDirs | pkg/changes/changes.go:157-174 | For each image the directories of all images it needs, directly or not, sorted and without repetition; fails exactly when the image graph does. |
| ChangeSets.DependentsNeed | internal/dependency/graph.go:67-78 | Following dependents forward from a reaches b if and only if b needs a. |
| ChangeSets.AffectedIffTriggered | pkg/changes/changes.go:98-109 | The two closures agree: an image is in the expansion of the changed images exactly when a changed file that is neither global nor excluded lies under one of its trigger directories. |
| ChangeSets.Detect | pkg/changes/changes.go:71-110 | Succeeds exactly for a known mode, an accepted project and valid patterns, and each error has its cause; a global change affects every image, otherwise an image is affected exactly when triggered, and nothing but images of the project is. |
| ChangeSets.LimitToChanges | pkg/cli/changes.go:164-194 | The rewritten filters select a pair exactly when some old filter selects it within the affected images; an empty result comes back exactly with skip set. |
| ChangeSets.LimitPreservesMeaning | pkg/cli/changes.go:164-194 | For named images this is 'matched before and affected' exactly unless a wildcard filter meets an affected list that holds an empty name. |
| ChangeSets.FilterMeaning | pkg/utils/filter.go:28-42 | A filter for an image and a tag, for one of them or for everything selects just that; a longer list of filters selects what one of them does, and no filters select everything. |
| Ownership.ComponentsJoin | internal/changes/classify.go:137-148 | Cutting a path at the slashes and joining again gives the path, and no component has a slash. |
| Ownership.OwnersAreWithin | internal/changes/classify.go:137-148 | An image owns a file exactly when the components of one of its directories begin those of the file. |
| Ownership.SiblingIsOutside | internal/changes/classify.go:141 | A directory whose name only begins like another is not within it. |
| Ownership.DetectedMeaning | pkg/changes/changes.go:71-110 | The result of detection in terms of the configuration and of path components: global exactly when some file rebuilds everything; otherwise an image is affected exactly when a file that counts belongs to an image it needs. |
| Ownership.EverythingIff | internal/changes/classify.go:78-109 | A file rebuilds everything exactly if it matches a global pattern or the link to the images, excluded or not, or if it is not excluded, belongs to no image, lies in the project, and unmatched files are not ignored. |
| Versions.PrecedenceIsTotal | internal/tagrange/candidate.go:38-45 | Version precedence (section 11 of Semantic Versioning 2.0.0) is total and decides equality on versions without metadata. |
| TagRanges.SortDescending | internal/tagrange/candidate.go:38-45 | Sorts the array in place: descending by version, then by raw string, and a permutation. |
| TagRanges.DescendingUnique | internal/tagrange/candidate.go:38-45 | With distinct raw strings every permutation of the input sorts to the same list. |
| TagRanges.GroupByLevel | internal/tagrange/dsl.go:42-66 | Cuts the list into its runs of equal keys and keeps the allowed number of runs from the front. |
| TagRanges.RankOfRun | internal/tagrange/dsl.go:42-66 | On a falling list the position of a run is the number of distinct levels above it. |
| TagRanges.SelectVersions | internal/tagrange/dsl.go:16-37 | On a descending list, in order, exactly the candidates with fewer than N distinct higher majors, fewer than M distinct higher minors of their major and fewer than P earlier candidates of their major and minor; 'all' lifts a bound. |
| TagGeneration.DistinctMajorsAscending | internal/tagrange/filter.go:108-119 | The strictly ascending list of the majors, as int64. |
| TagGeneration.ApplyMaxMajorIncrement | internal/tagrange/filter.go:82-106 | Keeps, in order, the candidates below the first gap larger than the limit. |
| TagGeneration.GuardKeepsReachedIff | internal/tagrange/filter.go:82-119 | For a positive limit, the guard keeps exactly the candidates whose major is reached from the lowest one through present majors in steps of at most the limit, if and only if all majors are below 2^63, or all are reached and int64 shows no gap wider than the limit between the greatest major from 2^63 on and the least one below. |
| TagGeneration.GuardKeepsReached | internal/tagrange/filter.go:82-106 | In particular it does for majors below 2^63. |
| TagGeneration.GuardNeverEmpties | internal/tagrange/filter.go:82-106 | A list that is not empty stays so, and applying the guard again changes nothing, for all majors. |
| TagGeneration.HugeMajorIsLowest | internal/tagrange/filter.go:108-119 | An example of the other case: of the majors 5 and 2^64-1 with limit 1, the outlier is kept and the lowest dropped. |
| TagPipeline.GenerateTags | internal/tagrange/generator.go:45-77 | Parse, filter, sort, select, render and limit in this order, with each failure where the source has it. |
| TagPipeline.ApplyFilters | internal/tagrange/filter.go:17-66 | Keeps exactly the candidates that pass every configured condition and then the guard; an unreadable bound is an error. |
| TagPipeline.ParsePermutes | internal/tagrange/generator.go:83-100 | Permuting the raw versions permutes the candidates. |
| TagPipeline.GenerationIgnoresOrder | internal/tagrange/generator.go:45-77 | With distinct raw strings every permutation of the input gives the same tags in the same order, or the same failure. |
| TagPipeline.TagsAreHighest | internal/tagrange/generator.go:109-145 | The names are distinct and cover every selected version, each tag carries the highest selected version rendering to its name, and there are no more than allowed. |
| RangeMeaning.FilteredMeaning | internal/tagrange/filter.go:17-66 | In terms of the filter block: without a limit on major gaps exactly the candidates are kept, in order, that are no prerelease unless the block sets exclude_prerelease to false, are not below its minimum, not above its maximum, and contain no excluded suffix; it fails exactly on an unreadable bound or when none is left. |
| RangeMeaning.SelectedIff | internal/tagrange/dsl.go:16-37 | An entry is selected exactly when the select block keeps its rank on each of the three levels; a level keeps all, its last ones, or by default the highest. |
| RangeMeaning.OnlyTheHighest | internal/tagrange/dsl.go:69-82 | Without a select block the first of a descending list is selected and nothing else. |
| RangeMeaning.SortedMeaning | internal/tagrange/candidate.go:38-45 | Sorted means that no version precedes a higher one and equal versions fall by raw string. |
| RangeMeaning.TagMeaning | internal/tagrange/generator.go:83-145 | Every tag is rendered field by field from a raw version that meets the filter block, and is marked a prerelease exactly if the source or the version says so; there are at most the configured number, or 50. |
| RangeMeaning.NoPrereleaseByDefault | internal/tagrange/filter.go:18-26 | Unless the block sets exclude_prerelease to false, no tag is a prerelease. |
| RangeMeaning.OneTagByDefault | internal/tagrange/generator.go:45-77 | Without a select block there is one tag; without a limit on major gaps it is that of a highest version that meets the filter block. |
| RangeMeaning.PrecedenceExamples | internal/tagrange/candidate.go:38-45 | The chain of examples in section 11 of Semantic Versioning 2.0.0. |
| TagMerge.ImageTags.CollidesWithVariantTag | pkg/discovery/tag_ranges.go:106-118 | Whether the name is another present tag plus a variant suffix. |
| TagMerge.CollidesIff | pkg/discovery/tag_ranges.go:103-118 | A collision is a way to cut the name into another tag and a variant suffix. |
| TagMerge.ImageTags.MergeGeneratedTags | pkg/discovery/tag_ranges.go:73-101 | Updates the image's tags to the merged ones; after an error the tags merged before it are there and no others. |
| TagMerge.MergeMeaning | pkg/discovery/tag_ranges.go:73-118 | From static tags: success exactly when every generated tag is valid, of one range per name and no variant of an earlier tag; then static tags are unchanged, the names are the union, and every generated name has its single range and carries what was generated last for it. |
| SemanticTags.MatchIsGrammar | internal/semantic_tags/main.go:14-24 | The deterministic parser accepts exactly the tag grammar, and no text has two readings. |
| SemanticTags.PrintAfterParse | internal/semantic_tags/main.go:26-68 | Printing a parsed tag gives the trimmed tag back exactly when no plus follows its prefix. |
| SemanticTags.ParseAfterPrint | internal/semantic_tags/main.go:173-193 | Parsing a printed record gives the record back exactly when its prefix does not begin with a space. |
| SemanticOrder.LowerVariantsChain | internal/semantic_tags/main.go:73-97 | The first lower variant parses unless metadata replaced a missing patch; its own lower variants are then exactly the remaining ones. |
| SemanticOrder.LowerVariantsAreLess | internal/semantic_tags/main.go:73-97 | Every lower variant is strictly below the tag and keeps its prefix and suffix. |
| SemanticOrder.CompareIsTotalPreorder | internal/semantic_tags/main.go:102-155 | The comparison, with numbers saturated at the int range and builds as strings, is total and transitive. |
| SemanticOrder.CompareByRanks | internal/semantic_tags/main.go:128-155 | Its sign decides the first difference of the numbers and then of the builds; prefix and suffix play no part. |
| Aliases.ResolveAliasesFor | pkg/rendering/main.go:121-144 | A key for exactly the lower variants of parseable candidates that are no prerelease; each points to the first highest of its claimants. |
| Aliases.ResolveLatestAliasFor | pkg/rendering/main.go:85-108 | The first highest candidate; an error exactly when an alias is set and no candidate takes part. |
| Aliases.AliasBelowTarget | pkg/rendering/main.go:121-144 | For a target without plus, its alias reads as a version below it with the same prefix and suffix. |
| ImageAliases.AliasCandidatesFor | pkg/rendering/main.go:48-62 | Every tag followed by its variants' tags, in sorted order, with the tag's prerelease mark. |
| ImageAliases.CandidatesIff | pkg/rendering/main.go:48-62 | The candidates are exactly the texts that can be cut into a tag and a variant suffix or nothing, marked as that tag is. |
| ImageAliases.ResolveAllAliases | pkg/rendering/image_aliases.go:33-79 | The series aliases with a latest alias per suffix laid over them, each pointing to the first highest version of that suffix; fails exactly when one is missing and that is not tolerated. |
| ImageAliases.AliasesPointToTags | pkg/rendering/image_aliases.go:29-32 | Every alias points to a tag of the image that is a version and no prerelease, exactly unless a latest alias with an empty name is configured. |
| NumberOrder.NumbersCompare | internal/semantic_tags/main.go:102-126 | Numbers compare by length and then digit by digit, leading zeros aside, below 9223372036854775807; from there on all numbers are equal. |
| NumberOrder.ShortNumbersCompare | internal/semantic_tags/main.go:102-126 | In particular up to 18 digits without leading zeros: shorter is smaller, then the digits decide. |
| NumberOrder.LeadingZeroCompares | internal/semantic_tags/main.go:102-126 | Zeros in front of a number change nothing. |
| NumberOrder.TagsCompare | internal/semantic_tags/main.go:128-155 | The comparison of two tags in terms of their digit strings: the first of major, minor and patch that differs decides, then the build as a string. |
| NumberOrder.SeriesOf | internal/semantic_tags/main.go:73-97 | The lower variants of a tag as text. |
| NumberOrder.TargetsAreReleases | pkg/rendering/main.go:121-144 | Whatever an alias points to is a candidate that is no prerelease, parses, and has the alias among its lower variants. |
| ShellQuote.LexQuote | internal/buildkit/build_context/shared.go:351-353 | A quoted argument is read as exactly its text, whatever stands around it (sections 2.2.1, 2.2.2, 2.2.3 and 2.3 of POSIX.1-2017 Shell Command Language). |
| ShellQuote.QuoteRoundTrip | internal/buildkit/build_context/shared.go:351-353 | Lexing the space-joined quoted arguments gives back exactly the arguments, empty ones and embedded quotes included. |
| ShellQuote.QuoteAllAppends | internal/buildkit/build_context/chisel.go:335-344 | Quoted arguments behind a plain list of words add exactly themselves to it. |
| ShellQuote.QuotedAreRead | internal/buildkit/build_context/nix.go:196-199 | Behind any command text that ends outside quotes, expansions included, quoted arguments end the word it has begun and are read as exactly themselves. |
| ShellQuote.QuoteAllInjective | internal/buildkit/build_context/shared.go:351-353 | Different argument lists never quote to the same text. |
| ShellQuote.QuoteParts | internal/buildkit/build_context/shared.go:351-353 | Text without single quotes is put between two of them; inside, each single quote closes, stands escaped, and opens again. |
| ShellQuote.WriteExtraArgs | internal/buildkit/build_context/chisel.go:360-365 | Appends the quoted arguments, each behind a space, to the builder. |
| ShellQuote.WriteCutArguments | internal/buildkit/build_context/chisel.go:335-344 | The shell reads the assembled arguments as the architecture, the ignore flags, the extra arguments and the slices, each as one word. |
| LineBuffer.LineBuf.Write | pkg/progress/linebuf.go:23-41 | Flushes the complete lines of buffer plus chunk in order and keeps the tail; other vertices keep theirs. |
| LineBuffer.LineBuf.FlushRemaining | pkg/progress/linebuf.go:45-52 | Writes out what is buffered for the vertex, and forgets it. |
| LineBuffer.SplitUnique | pkg/progress/linebuf.go:23-41 | There is one way to cut data into newline-free lines and a newline-free tail. |
| LineBuffer.RunSplitsData | pkg/progress/linebuf.go:23-41 | For any chunking and any interleaving, the lines flushed for a vertex are those of its concatenated data and its buffer is the tail. |
| LineBuffer.RunConserves | pkg/progress/linebuf.go:23-52 | Whatever is finished when, the bytes written for a vertex and those buffered are its data. |
| LineBuffer.Replay | pkg/progress/linebuf.go:23-52 | A run of the object is a run of the steps the two results above speak of. |
| LogWriter.LogWriter.Write | pkg/logging/logrus_writer.go:54-73 | Without a failing writer the complete lines are written once each, in order; a failing write loses its own line and keeps the rest. |
| LogWriter.WriteAll | pkg/logging/logrus_writer.go:54-73 | For any chunking, when no write fails: the coloured lines of the concatenated data, once each and in order, and the buffer is the tail. |
| LogWriter.WritesConcat | pkg/logging/logrus_writer.go:54-73 | Two writes give the lines and the tail of one write of both. |
| LogWriter.LogWriter.Flush | pkg/logging/logrus_writer.go:76-84 | Writes an unfinished line and clears the buffer in every case. |
| LogWriter.FormatLine | pkg/logging/logrus_writer.go:86-127 | A line with a level field is gray up to it, the field has the colour of its value, the message text its own, and the rest is gray; without a reset code or a level the line is unchanged. The pieces are the line, in order and complete. |
| LogWriter.ExtractField | pkg/logging/logrus_writer.go:160-193 | The first occurrence of the field, found exactly when the prefix occurs; the value ends at the first unescaped quote, or unquoted at the first space. |
| LogWriter.FieldUnique | pkg/logging/logrus_writer.go:157-193 | That determines value and position. |
| LogWriter.ErasedIsLine | pkg/logging/logrus_writer.go:86-140 | Erasing the colour codes gives the line back. |
| SbomPool.StepConserves | pkg/cli/sbom.go:119-158 | No step of any worker loses or doubles an item: queued, in-progress, succeeded and failed items together stay the same. |
| SbomPool.RunInv | pkg/cli/sbom.go:109-169 | In every interleaving of any number of workers: conservation, the counter counts the successes, and an error is recorded exactly when an item failed. |
| SbomPool.PoolTerminates | pkg/cli/sbom.go:116-159 | No run takes more than three steps per item and one per worker. |
| SbomPool.PoolProgresses | pkg/cli/sbom.go:116-159 | A state is stuck exactly when all workers have stopped. |
| SbomPool.PoolResult | pkg/cli/sbom.go:161-169 | A finished run without a recorded error has generated exactly one result per item; with one it has generated fewer, and what is left is still queued. |
| SbomPool.FirstErrorStays | pkg/cli/sbom.go:135-141 | The first recorded error is never replaced. |
| SbomPool.StrandedOnlyWhenAllFail | pkg/cli/sbom.go:116-169 | In every finished run at most one item per worker has failed, items are left in the queue only if every worker failed on one, and all others have succeeded. |
| SbomPool.FailureStrandsItems | pkg/cli/sbom.go:135-142 | It does happen: a finished run of one worker and two items that leaves the second one in the queue. |
| SbomPool.ErrorIff | pkg/cli/sbom.go:119-169 | In a finished run an error is reported exactly if the work of some item failed, and it is the error of such an item. |
| SbomPool.TakenInOrder | pkg/cli/sbom.go:101-120 | Items are taken in order: what is queued is always a tail of the items. |
| Shards.TagIndex | pkg/shard/shard.go:69-90 | The sorted, duplicate-free list of exactly the base and variant tags of all images. |
| Shards.UnitsIff | pkg/shard/shard.go:69-79 | The units are the pairs of an image identifier and a text that is a tag of the image, or can be cut into a tag and the suffix of a variant. |
| Shards.ListUnique | pkg/shard/shard.go:63-68 | Only one list meets that, so the map order does not show. |
| Shards.OwnedUnits | pkg/shard/shard.go:185-197 | The sorted list of exactly the units the shard owns. |
| Shards.OwnsDefinedIff | pkg/shard/shard.go:35-55 | The owner computation panics for no shard and no unit exactly when the total is at most one or no multiple of 2^32; the total 2^32, which validation accepts, panics for every unit. |
| Shards.OwnershipTellsUnitsApart | pkg/shard/shard.go:35-44 | The hash of identifier, NUL and tag name modulo the total decides; units with NUL-free identifiers are equal exactly if no hash and no shard tells them apart. |
| Shards.ShardsPartition | pkg/shard/shard.go:35-44 | For every positive total the code can work with, each unit has an owner among the shards and different shards own nothing in common. |
| Shards.ShardsCount | pkg/shard/shard.go:185-197 | The lengths of the shards' lists add up to the length of the index. |
| Shards.AddTag | pkg/shard/shard.go:30-34 | One more tag adds to each shard its share of the new units and moves no other unit. |
| Shards.NewTagSharder | pkg/shard/shard.go:105-117 | The predicate holds for exactly the owned units of the project, never for an unknown pair; without sharding for all. |
| Shards.NewBaseTagSharder | pkg/shard/shard.go:126-166 | The predicate holds exactly when the shard owns the base tag or one of its variants. |
| Shards.VariantBringsBase | pkg/shard/shard.go:119-125 | Whichever shard owns a variant also builds its base tag. |
| Shards.UnitCountByName | pkg/shard/shard.go:172-180 | Per name, the sum over its images of tags times one plus variants. |
| Shards.ImageCount | pkg/shard/shard.go:76-79 | An image has at most that many units, and exactly that many when its tag and variant pairs give distinct names. |
| Shards.CountsCoverIndex | pkg/shard/shard.go:168-171 | The counts add up to at least the length of the index, with equality exactly when no image has two pairs that concatenate to the same name. |
| VersionCache.KeyInputInjective | internal/tagrange/cache.go:116-124 | NUL-free parts and fingerprints are hashed through an injective encoding. |
| VersionCache.Cache.Load | internal/tagrange/cache.go:198-225 | Serves the entry that memory has if it is valid, and looks at the disk only if memory has none; what it serves is in memory afterwards. |
| VersionCache.Cache.Store | internal/tagrange/cache.go:239-268 | Memory always gets the entry; the disk only if the directory is writable and the write succeeds, and a failed write marks the directory. |
| VersionCache.Cache.SetForceRefresh | internal/tagrange/cache.go:101-105 | Sets the flag and touches no layer. |
| VersionCache.Cache.FetchVersions | internal/tagrange/cache.go:141-193 | Fetches exactly when forced or when both lookups miss; otherwise answers from an entry that one of them accepts. What it fetched is in memory with its clock reading plus its TTL as expiry; a failed fetch changes nothing. |
| VersionCache.RefetchOnlyAfterExpiry | internal/tagrange/cache.go:141-268 | After any sequence of calls and restarts, an unforced call refetches exactly when the last stored entry, unless a restart lost it, has expired at both lookups. |
| VersionCache.UnwritableStays | internal/tagrange/cache.go:239-275 | Once the directory is marked, nothing reaches the disk until the process ends. |
| CacheExpiry.ServedUntilExpiry | internal/tagrange/cache.go:176-193 | Once a call has fetched, and until something replaces or loses what it stored, lookups serve what it fetched exactly before its clock reading plus its TTL, and an unforced call refetches exactly when both of its readings are at or past that time. |
| CacheExpiry.AcceptedInTime | internal/tagrange/cache.go:176-225 | In every interleaving, an entry that a call accepts was made by a call of this process and accepted before that call's clock reading plus its TTL, or came into the file of its key from elsewhere. |
| CacheExpiry.ReturnedInTime | internal/tagrange/cache.go:141-193 | What a call returns was fetched by the flight it was on, or accepted before the TTL of the call that stored it had passed, or stood in a file from elsewhere. |
| VersionFlights.NextInv | internal/tagrange/cache.go:141-268 | Every step of every caller and of the environment keeps: memory, disk and pending results hold versions that were fetched, and the flights are exactly those of the leading calls. |
| VersionFlights.ReturnsOnlyLiveVersions | internal/tagrange/cache.go:141-193 | In every interleaving a call returns versions that some fetch for its key produced: those of its flight's own fetch, or those of an entry of the current schema that the call or its flight found unexpired on the clock. |
| VersionFlights.OneFetchPerKey | internal/tagrange/cache.go:154-188 | At most one fetch per key is in flight. |
| VersionFlights.SomeoneCanMove | internal/tagrange/cache.go:154-188 | A call that is not done can move, or the leader it waits for can. |
| VersionFlights.AdvanceShrinks | internal/tagrange/cache.go:141-268 | Each call takes at most fourteen steps of its own. |
| ForcedRefresh.ForcedRefetchIff | internal/tagrange/cache.go:141-193 | A forced call that enters its flight will return only what that flight fetches, whatever happens then, if and only if it finds no flight for its key, or one whose leader is forced or can no longer serve an entry. Stated for a clock that may go back, and for one that may not: then a leader at an expired entry, or bound to find one that nothing can replace, can no longer serve one either. |
| ForcedRefresh.ForcedLeaderCommitted | internal/tagrange/cache.go:154-162 | A forced leader never serves an entry. |
| ForcedRefresh.UncommittedCached | internal/tagrange/cache.go:154-162 | From every state in which the leader may still serve an entry there is a continuation in which its waiters get one. |
| ForcedRefresh.ForcedCallMayJoin | internal/tagrange/cache.go:98-105 | For every key a state can come about in which a forced call joins such a flight and may be served a cached entry without any clock going back. |

## Left out

- SafeIffUnambiguous: assumes that no image has an empty name, since the scan takes an empty base name for none.
- SelectVersions: is stated for lists on which majors fall and minors fall within a major, which is what sorting delivers.
- MergeMeaning: a name is compared with the tags present when it is merged, as in the code; that a later base tag meets an earlier generated name is not excluded.
- ReturnsOnlyLiveVersions: other processes are assumed to write only versions that some process fetched, or files this process cannot use.
- ForcedRefetchIff: one clock checks all entries. In the code an entry from disk is compared by wall-clock time and one this process stored by a reading that never goes back; the two statements are the two extremes.
- FetchVersions: the sequential object takes its clock readings and the outcome of the fetch and of the write as arguments; concurrency is in `VersionFlights`.
- PipelineImages: builds sorted copies of the dependency lists, where the source sorts the lists of the graph in place and then drops the graph; platforms, tags, aliases and change paths of the pipeline, and the failures they can cause, are not modelled.
- Entries of the version cache: source, descriptor and fetch time, which no decision reads.
- The TTL of a call is an argument; reading it from the configuration, and its default, are not modelled.
- Cache directory resolution and file paths: a key stands for its path; the temporary file before a rename is one step with the rename.
- Reading Dockerfiles and the regular expression for references, symbolic links and git: the model gets parsed references, directories and file lists.
- ScanRenderedProject: walks rendered files and uses the same graph operations.
- Template, JSON and YAML processing and the texts of error messages.
- Version metadata: precedence ignores it, and candidates that differ in nothing else are told apart by their raw string.
- The build script for Nix and the script parts around the chisel arguments: fixed text.
- The list of unparsed examples in the error of GenerateTags.
- Registry, network, Docker, BuildKit, Vault and SBOM generation itself: the pool only sees that an item succeeds or fails.
- The number of SBOM workers, which the command limits to between one and four: the results hold for any number.
- Command-line flags, terminal progress, reports and CI templates: user interface.
