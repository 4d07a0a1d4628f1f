# Verified models of Grafana's stateful core

This project models the parts of the repository whose correctness depends on loops, orders and state that no single
function body shows, and proves what they keep over all inputs and all runs. One Dafny module stands for one source
file or one protocol:

- `MathExpr`, `Commands`, `Nodes`, `Topo`, `Pipeline`: server-side expressions. Queries become nodes of a dependency
  graph, the graph is sorted, and the nodes run against a growing map of results. A request whose refIDs are distinct
  has one answer, the solution of all its nodes at once, whatever order is picked.
- `ScrollManager`: scrolling a trace to the next visible span, with the set of hidden parents that grows on the way.
- `Expanders`, `Configuration`, `ConfigurationExpansion`: variables in configuration values, and the layers of the configuration.
- `DashboardTemplate`, `TemplateStability`, `DashboardSync`: dashboards shipped with plugins, evaluated and kept in step with the database.
- `PluginSignatures`, `PluginSettings`: verdicts that are worked out while visiting a map in no particular order.
- `FileWalk`: the directory walk that follows links.
- `AvatarPool`, `Login`, `OverlappingLogins`: protocols of several parties: the download pool, and login attempts one
  after the other and at the same time.
- `DataSourceCache`, `SourceMaps`: caches against the same lookups without a cache.
- `Tags`, `BasicAuth`: round trips. Base64 follows section 4 of RFC 4648; credentials follow section 2 of RFC 7617.
- `Prelude`: success-or-error types and three facts about finite sequences.

Code that changes things step by step is a method or a class here, proved against a specification; what is promised of
it is then proved about the specification. What a specification function means is stated once more without it: by positions,
paths or places, or by a second form such as a stack machine. Services behind the message bus and library calls enter as contracts, as
function-valued fields (`Backend`, `World`, `Env`), or as small reference implementations (`Topo.Sort`, base64). The
iteration order of a Go map is an arbitrary choice.

Where the code does not do what one would expect of it, the code was followed, with failing inputs and the condition under
which it does:

- A refID used twice makes the outcome depend on the order (`Pipeline.DuplicatesDiverge`).
- A key the user's file puts in a section like `[auth.proxy]` overwrites `[auth]` when only the parent section has it;
  layering is one precedence lookup exactly if no key falls through like this (`Configuration.StackRefinesIff`). This is
  how the INI library, which is not part of this repository, looks up keys.
- Replacing the first copy of each variable is not simultaneous substitution when a value or a foreign variable contains
  a copy (`Expanders.ExpansionWithVariable`, `Expanders.VariableInsideVariable`). For values that are not empty and do not
  start with `$` the exact condition is that no copy stands before a variable to be replaced
  (`Expanders.SubstitutesWhenUncopied`); where every `$` lies in a variable or can start none and values have none, it is
  that no own variable ends a foreign one before it (`Expanders.SubstitutesWhenNoEndings`).
- Template evaluation can do more on a second pass when a value completes a reference. It never does exactly if the
  bindings are harmless: no value brings a variable that is replaced or leaves one unfinished, alone or after a `$`
  (`TemplateStability.StableIffHarmless`, `TemplateStability.EvaluateTwiceIff`).
- With no statement failing, a synchronisation is marked as done exactly if the plugin's files load, it has a setting, and
  no dashboard that is to be imported asks for inputs (`DashboardSync.SyncPluginDashboards`, `DashboardSync.InputsBlock`);
  a marked one has settled exactly if files of the same slug agree on the revision.
- The set of hidden parents that grows on the way changes no verdict exactly if whatever a walk meets before an id is met
  only by spans below that id too (`ScrollManager.MemoExactIff`); single parents suffice.
- Cached transports are fresh exactly if those that sign were made with fresh secrets and two requests that share one would
  have been given the same (`DataSourceCache.TransportsFreshIff`).
- The settings of an app component depend on the order of the registry exactly if its app has no row and is on by rule
  (`PluginSettings.OrderIndependentIff`), and the list of enabled plugins leaves out nothing that is registered
  (`PluginSettings.GetEnabledPlugins`).
- Overlapping logins exceed the limit by the overlap, and no more (`OverlappingLogins.BoundedByOverlap`,
  `OverlappingLogins.BoundIsMet`).
- A plugin's source map is looked for in another plugin's directory if that is listed earlier and its id is a beginning
  of the right one (`SourceMaps.OwnDirectoryIff`).
- The scroll search starts at the given span itself when that is neither the first nor the last, although the comment in
  the source speaks of one row inside the view; and a match at index 0 is treated as no match, with the same result.

## Model

| member | source | states |
|---|---|---|
| Topo.Sort | pkg/expr/graph.go:86-98 | Sorting succeeds exactly on acyclic graphs and then lists every vertex once with every edge pointing forward; which ready vertex comes first is open. |
| Topo.NoSourceMeansCycle | pkg/expr/graph.go:86-98 | A nonempty set of vertices that all have a predecessor in it contains a cycle, so rejecting is never premature. |
| Topo.OrderMeansAcyclic | pkg/expr/graph.go:86-98 | A graph that has a forward order has no cycle. |
| MathExpr.WalkReadsOnlyVarNames | pkg/expr/mathexp/exp.go:79-95 | Evaluating a math expression looks at nothing but the variables the parser collected from it, for trees of any depth. |
| MathExpr.WalkIsComputed | pkg/expr/mathexp/exp.go:79-129 | Walking a tree is running its postfix form on a stack machine that pops the right operand before the left: the same result or the same first error, function arguments in order, for every tree. |
| MathExpr.VarNamesAreLoads | pkg/expr/mathexp/exp.go:79-95 | The variables collected are exactly those the postfix form loads, in that order. |
| Commands.OnEachSeriesPointwise | pkg/expr/commands.go:120-134 | Reducing or resampling yields one value per series in order, or the error of the first value that is no series or fails. |
| Commands.Execute | pkg/expr/commands.go:67-69 | A formula yields what its postfix form computes; a reduce or resample command each series of its variable reduced or resampled in order, or the error at the first value that is none or fails; the loops are at lines 120 and 214 as well. |
| Commands.BinaryOfTwo | pkg/expr/mathexp/exp.go:245-271 | In `$A - $B` the first variable is the left operand. |
| Commands.NeedsExactly | pkg/expr/commands.go:61-134 | A formula declares what its postfix form loads; the other commands declare a variable exactly if it can change their outcome. |
| Commands.ReadsOnlyNeededVars | pkg/expr/commands.go:61-134 | Two maps that agree on the declared variables give a command the same outcome: `NeedsVars` is its whole read frame. |
| Nodes.BuildsIffFits | pkg/expr/nodes.go:88-198 | A query builds exactly if the fields its kind asks for are there with the right types and its formula or window parses; the node then holds the command on the named variable, or the data source with its limits. |
| Nodes.TruncateIs | pkg/expr/nodes.go:164-199 | A number in a query loses its fraction, towards zero. |
| Nodes.NodeReadsOnlyNeeds | pkg/expr/nodes.go:84-86 | Only the needed results can change a node's outcome, and none at all that of a data source query. |
| Pipeline.BuildGraph | pkg/expr/graph.go:116-150 | Succeeds exactly if every query builds; the graph then holds one node per query and no edge, and otherwise the error is that of the first query that does not build. |
| Pipeline.BuildNodeRegistry | pkg/expr/graph.go:101-113 | In any order of visits, every refID in use leads to some node that carries it, and nothing else is registered. |
| Pipeline.LinkNode | pkg/expr/graph.go:168-180 | A node is linked to all it needs, or refused because a name is nobody's or leads back to itself. |
| Pipeline.BuildGraphEdges | pkg/expr/graph.go:153-183 | Succeeds exactly if every needed name can be linked; the edges are then those of the needs, in any order of visits. |
| Pipeline.BuildExecutionOrder | pkg/expr/graph.go:86-98 | Succeeds exactly if the edges are acyclic; the result is a permutation of the nodes with every dependency earlier. |
| Pipeline.LinkableAcyclicIffResolvable | pkg/expr/graph.go:153-183 | With distinct refIDs, the checks on ids amount to this on refIDs: every needed name is a node's, nobody needs itself, no cycle of dependencies. |
| Pipeline.BuildPipeline | pkg/expr/graph.go:55-98 | Success delivers a permutation of the nodes with dependencies first; with buildable nodes and distinct refIDs it happens exactly if the dependencies resolve. |
| Pipeline.Execute | pkg/expr/graph.go:40-51 | The loop computes the run of the list from left to right, stopping at the first error. |
| Pipeline.NeedsAreReady | pkg/expr/graph.go:40-51 | When a node of a valid order is reached, all it needs is in `vars`. |
| Pipeline.RunSolves | pkg/expr/graph.go:40-51 | What a successful run ends with satisfies every node at once, against the complete map. |
| Pipeline.RunIffSolves | pkg/expr/graph.go:40-51 | A run of a valid order ends with a map exactly if that map is the solution of the nodes, a notion without any order. |
| Pipeline.Confluence | pkg/expr/graph.go:40-98 | Any two valid orders of the same nodes both fail or end with the same results, given distinct refIDs. |
| Pipeline.SolutionAnswers | pkg/expr/graph.go:40-51 | A solution has, for every query and nothing else, what the node it becomes says: the postfix form of its formula, its series reduced or resampled, or its data source. |
| Pipeline.DuplicatesDiverge | pkg/expr/graph.go:40-51 | Whatever the other nodes: two data source queries of one refID that are answered differently have two valid orders that do not end in the same results, and both succeed if the nodes do on any variables. |
| Pipeline.DuplicateRefIDsDiverge | pkg/expr/graph.go:40-51 | Such a case exists, with both orders succeeding. |
| Pipeline.Transform | pkg/expr/graph.go:40-98 | Build and run: the solution if the request resolves and has one, else an error, independent of every choice on the way; each query is then answered under its refID by the command or data source it spells. |
| ScrollManager.AncestorIffChain | packages/jaeger-ui-components/src/ScrollManager.tsx:57-82 | The ancestors of a span are the ends of parent chains, so hiddenness does not depend on how well-foundedness is shown. |
| ScrollManager.ParentsAre | packages/jaeger-ui-components/src/ScrollManager.tsx:61-68 | The parents of a span are named by its references of the two kinds, and no others. |
| ScrollManager.LastParentIs | packages/jaeger-ui-components/src/ScrollManager.tsx:61-78 | The walk goes on at the last of them. |
| ScrollManager.SpansByIDAre | packages/jaeger-ui-components/src/ScrollManager.tsx:160-162 | Of several spans of one id the last is the one found. |
| ScrollManager.IsSpanHidden | packages/jaeger-ui-components/src/ScrollManager.tsx:57-82 | Terminates; hidden exactly if some ancestor is in the set; what is collected on a hidden verdict is exactly what the walk met up to the first id in the set. |
| ScrollManager.MemoKeepsVerdicts | packages/jaeger-ui-components/src/ScrollManager.tsx:177-184 | A set grown by ids that are met only by spans with a collapsed ancestor gives every span the verdict of the original set. |
| ScrollManager.GrowingStaysFaithful | packages/jaeger-ui-components/src/ScrollManager.tsx:177-184 | Adding the ids collected on a hidden verdict keeps the grown set of that kind, at every round of both loops, on every trace of the next row. |
| ScrollManager.MemoExactIff | packages/jaeger-ui-components/src/ScrollManager.tsx:177-184 | For every trace without a cycle of parents: the memo changes no verdict, whatever is collapsed and whichever hidden span it learns from, exactly if each id a walk meets up to another is met only by spans that meet the other as well. |
| ScrollManager.SingleParentsNest | packages/jaeger-ui-components/src/ScrollManager.tsx:57-82 | Traces in which no span has two parents meet that condition. |
| ScrollManager.Fallback | packages/jaeger-ui-components/src/ScrollManager.tsx:188-204 | The do-while loop ends at the greatest index up to its start that is not hidden, and runs off the front only if all are hidden. |
| ScrollManager.ScrollToVisibleSpan | packages/jaeger-ui-components/src/ScrollManager.tsx:123-207 | On every trace on which the memo is exact: terminates with the nearest span ahead that is in view, matches and is not hidden; without one, the last shown span at or before the end it was heading for; with a root first it never fails. |
| ScrollManager.EligibleIs | packages/jaeger-ui-components/src/ScrollManager.tsx:164-186 | A span may be stopped at exactly if it is in view, a match if there is a search, and no chain of parents from it ends in a collapsed span. |
| ScrollManager.InViewIff | packages/jaeger-ui-components/src/ScrollManager.tsx:152-172 | In view means that some moment is both in the span and in the window, unless the window is whole. |
| ScrollManager.RootIsNeverHidden | packages/jaeger-ui-components/src/ScrollManager.tsx:195-204 | A first span without parents stops the backward search. |
| ScrollManager.SecondParentBreaksMemo | packages/jaeger-ui-components/src/ScrollManager.tsx:177-184 | With two parents on a span the memo changes a verdict: a concrete trace. |
| Expanders.MatchSound | pkg/setting/expanders.go:46 | What the matcher finds is `$`, a valid kind, and a nonempty argument in braces. |
| Expanders.MatchComplete | pkg/setting/expanders.go:46 | Every text of the pattern is found at its place with its kind and argument, whatever follows. |
| Expanders.ReplaceEachIsSubstitution | pkg/setting/expanders.go:88-108 | If no copy of an expanded variable's text stands before it, replacing first copies one after another is simultaneous substitution, on every split of the text. |
| Expanders.SubstitutesWhenUncopied | pkg/setting/expanders.go:88-108 | For every text whose own variables expand to something not empty and not starting with `$`: the loop substitutes exactly if one of them fails to expand or no copy of a variable to be replaced stands before it. |
| Expanders.SubstitutesWhenNoEndings | pkg/setting/expanders.go:88-108 | If every `$` lies in a variable or can start none, as in `$NONCE`, and the values of this text's own variables contain none: the loop substitutes if no own variable is the ending of a foreign one before it, and for values that are not empty exactly then, or if one fails to expand. |
| Expanders.NoInnerDollarNoEnding | pkg/setting/expanders.go:88-108 | If every `$` starts a variable or can start none, no variable is the ending of a foreign one. |
| Expanders.FailsAlike | pkg/setting/expanders.go:97-101 | A variable that does not expand ends the loop and the substitution in the same error, whatever the text has become. |
| Expanders.ApplyExpander | pkg/setting/expanders.go:88-108 | The find-once, replace-first loop is simultaneous substitution of exactly the expander's own variables, errors included, under the two equivalences above, and whenever every `$` starts a variable or can start none and no value of this text contains one. |
| Expanders.ExpansionWithVariable | pkg/setting/expanders.go:103 | `${a}${b}` with `${b}` the value of a: the loop expands the wrong copy. |
| Expanders.VariableInsideVariable | pkg/setting/expanders.go:103 | A family of texts with a variable inside a foreign variable: the inner copy is replaced although no value contains a `$`. |
| Expanders.OnePassOfAll | pkg/setting/expanders.go:77-86 | One expander's pass leaves the others the foreign variables in place and exactly what a joint pass would give them, if every `$` lies in a variable or can start none and the values it puts into this text contain no `$`. |
| Expanders.VariableGoesByName | pkg/setting/expanders.go:97 | In any text `$__name{arg}` becomes what the first expander of that name makes of `arg`, and stays if there is none. |
| Expanders.BareVariableGoes | pkg/setting/expanders.go:97 | `${arg}` goes to the first environment expander in the same way. |
| Expanders.PassesAreOne | pkg/setting/expanders.go:77-86 | One expander after another is one simultaneous pass in which each variable goes to the first expander that owns it, if every `$` lies in a variable or can start none and each expander finds, among the variables left in this text, values without `$` and no own variable ending a foreign one. |
| Expanders.StrayDollarStays | conf/defaults.ini:242 | A text with a stray `$`, as in the shipped `$NONCE`, is such a text, and comes through as it is. |
| Expanders.ExpandVar | pkg/setting/expanders.go:77-86 | For every text, the result is that of the expanders' loops one after the other, and on a text as in `PassesAreOne` that of one simultaneous pass. |
| Configuration.LoadSpecifiedConfigFile | pkg/setting/setting.go:586-603 | The user's entries are written in file order, empty ones skipped, each to the key its lookup finds. |
| Configuration.FindIsInnermost | pkg/setting/setting.go:592-600 | A lookup finds the key of the innermost section around the one asked for that has one of that name. |
| Configuration.Override | pkg/setting/setting.go:412-444 | A pass over all sections and keys replaces exactly the values its source has something for, in place. |
| Configuration.ApplyEnvVariableOverrides | pkg/setting/setting.go:412-444 | Exactly the keys whose variable, named as in the next row, is set and not empty change; it fails exactly if such an address does not parse. |
| Configuration.EnvKeyIs | pkg/setting/setting.go:501-507 | The name of a key's variable, character by character: `GF_`, the section, `_` and the name, in upper case, with `_` for each dot, and in the section for each hyphen; no other text names it. |
| Configuration.SourcesAre | pkg/setting/setting.go:412-541 | Environment and command line are read under these names: `section.name`, the name alone in the default section, and `default.section.name`. |
| Configuration.ApplyCommandLineDefaultProperties | pkg/setting/setting.go:509-523 | Exactly the keys named `default.section.key` on the command line change. |
| Configuration.ApplyCommandLineProperties | pkg/setting/setting.go:526-541 | Exactly the keys named on the command line change, without section prefix in the default section. |
| Configuration.UserLayer | pkg/setting/setting.go:586-603 | If no entry falls through to a parent section, the keys are the defaults' and the user's non-empty ones, each with the user's value if there is one. |
| Configuration.FirstFallThroughIsLost | pkg/setting/setting.go:592-600 | The first entry that does fall through never gets a key of its own. |
| Configuration.StackRefinesIff | pkg/setting/setting.go:608-651 | The four passes refine one precedence lookup (command line, environment, user file, command-line default, shipped default) with the expected keys, exactly if nothing falls through. |
| ConfigurationExpansion.LoadLayers | pkg/setting/setting.go:619-651 | The four passes in a row succeed exactly if the addresses that are applied parse; the file is then in the stacked state, and otherwise holds lower layers and environment values only. |
| ConfigurationExpansion.LoadConfiguration | pkg/setting/setting.go:619-657 | Layers and expansion: fails on an address exactly if one that is applied does not parse, and on a variable exactly if the expanders fail on one of the layered values. Otherwise each key has what the expanders make of its layered value, by one simultaneous pass for each value as in `PassesAreOne`. What stands under the key's command-line name wins, else a variable of its environment name that is set, both whatever falls through; without fall-through the user's file, the default name and the shipped value follow, and the keys are the expected ones exactly then. |
| Configuration.FallThroughExample | pkg/setting/setting.go:592-600 | `[auth.proxy] enabled` overwrites the shipped `[auth] enabled`. |
| ConfigurationExpansion.ExpandConfig | pkg/setting/expanders.go:48-75 | In place, all expanders over all keys give each value what they make of it one after the other, whatever the other values are, and one simultaneous pass of it if it is as in `PassesAreOne`; the whole fails exactly if that fails for some value. |
| TemplateStability.ReferenceReplaced | pkg/plugins/dashboard_importer.go:14 | A reference `${name}` in the middle of any text gives way to its value, if it has one. |
| DashboardTemplate.HeadIs | pkg/plugins/dashboard_importer.go:14 | What a text starts with is taken for a reference exactly if it has the form of the pattern: `${`, at least one character, up to the nearest brace on the line. |
| DashboardTemplate.InterpolateByPieces | pkg/plugins/dashboard_importer.go:150-158 | Every text reads from the left as references and characters at which none starts; the result is each piece in turn, or its value for a reference that has one. |
| DashboardTemplate.EvaluatedByPaths | pkg/plugins/dashboard_importer.go:147-188 | Down every path of indices and keys, of any depth: a string has its references replaced, all else is kept, and nothing is found through a declaration. |
| DashboardTemplate.BindingsAre | pkg/plugins/dashboard_importer.go:126-145 | A reference is bound to a value exactly if it spells a declared name and the value is that of the first input supplying the last declaration of the name. |
| TemplateStability.OneInput | pkg/plugins/dashboard_importer.go:116-188 | The whole of it on one declaration and one field, for every name, type, key and value. |
| DashboardTemplate.ShapeIsKept | pkg/plugins/dashboard_importer.go:147-188 | Evaluation keeps array lengths, object keys other than `__inputs`, numbers, booleans and nulls at every level of every tree. |
| DashboardTemplate.AllInputsDropped | pkg/plugins/dashboard_importer.go:177-188 | No `__inputs` is left at any level. |
| TemplateStability.StableIffHarmless | pkg/plugins/dashboard_importer.go:150-158 | A second interpolation changes no text at all exactly if, for every variable that is replaced by another text, reading its value, alone and after a `$`, meets no such variable and leaves none unfinished. |
| TemplateStability.InterpolateTwice | pkg/plugins/dashboard_importer.go:150-158 | In particular with values that are not empty, do not start with a brace and contain no `$`. |
| TemplateStability.EvaluateTwiceIff | pkg/plugins/dashboard_importer.go:147-188 | The same exact condition for all JSON trees. |
| TemplateStability.EvaluateTwice | pkg/plugins/dashboard_importer.go:147-188 | In particular, with values as above, for every JSON tree. |
| TemplateStability.SecondPassReplacesMore | pkg/plugins/dashboard_importer.go:150-158 | Explicit failing texts: where a value and its surroundings spell another reference, the second pass replaces that. |
| DashboardTemplate.Evaluator.FindInput | pkg/plugins/dashboard_importer.go:116-124 | The first input of the declared type under the name or `*`, and none only if no input supplies it. |
| DashboardTemplate.Evaluator.Eval | pkg/plugins/dashboard_importer.go:126-145 | Exactly the references that are bound have values, and down every path the template comes out with them; or the first declaration nobody supplies is named. |
| DashboardTemplate.Evaluator.EvalObject | pkg/plugins/dashboard_importer.go:177-188 | In any order of keys, the recursive rewrite of an object is its evaluation; what is no object becomes an empty one. |
| DashboardTemplate.ImportTwice | pkg/plugins/dashboard_importer.go:126-188 | Evaluating a result once more needs no inputs and changes nothing, whatever the values were. |
| DashboardSync.GetPluginDashboards | pkg/plugins/dashboards.go:28-90 | Fails exactly if the query fails or a dashboard among the includes cannot be read. In any order of rows: an entry for each dashboard among the includes, in their order, with its file's revision and the stored dashboard of its slug, if there is one, and its revision; then one removed entry for each stored dashboard whose slug no such file has. |
| DashboardSync.ShippedAre | pkg/plugins/dashboards.go:45-57 | What is shipped are the files of exactly the includes of kind dashboard, in order; none if one of them does not load. |
| DashboardSync.AutoUpdateAppDashboard | pkg/plugins/dashboards_updater.go:36-52 | Succeeds exactly if the file loads, asks for no inputs, and the statement goes through; then the file is saved under its slug. A failure leaves the dashboards alone. |
| DashboardSync.ApplyInfo | pkg/plugins/dashboards_updater.go:65-87 | Each entry brings the store one dashboard closer to the shipped state and undoes nothing achieved before; with no statement failing it succeeds exactly if it is not the import of a file that asks for inputs. |
| DashboardSync.SyncPluginDashboards | pkg/plugins/dashboards_updater.go:54-106 | With no statement failing, the marker is written exactly if the files load, there is a setting, and no file to be imported asks for inputs; never otherwise. It is then the installed version, nothing that is no longer shipped is left, each slug has the revision of the last file that was to be imported, and nothing is left to delete or import exactly if files of one slug agree. Any run touches only what was outdated or gone; a settled store is left alone. |
| DashboardSync.MarkedByIncludes | pkg/plugins/dashboards_updater.go:54-106 | After a marked run every stored dashboard of the plugin has a file among the includes, and if these agree each is stored at the revision of its file. |
| DashboardSync.BlockedIsUnsettled | pkg/plugins/dashboards_updater.go:65-87 | A store that lacks a dashboard which asks for inputs is not settled. |
| DashboardSync.InputsBlock | pkg/plugins/dashboards_updater.go:36-52 | Such a store exists although all files agree: one new dashboard that asks for inputs. |
| DashboardSync.SettledMeansQuietReport | pkg/plugins/dashboards.go:43-87 | A store has nothing to delete or import exactly if its report has no removed entry and no differing revision. |
| DashboardSync.SyncTwice | pkg/plugins/dashboards_updater.go:54-106 | A second run after a marked one deletes and imports nothing and finds the store settled, if files of one slug agree. |
| DashboardSync.HandlePluginStateChanged | pkg/plugins/dashboards_updater.go:108-131 | A disabled plugin loses all its dashboards in the organisation, for certain if no statement fails, or some on a failure, and nothing else changes; an enabled one is synchronised with all that this promises, and with no statement failing is marked exactly under the condition above. |
| DashboardSync.UpdateAppDashboards | pkg/plugins/dashboards_updater.go:12-34 | Markers only ever move to the installed version, and only of enabled outdated plugins; with no statement failing, all of these whose files load and ask for nothing end up marked. Rows change only if they belong to such a plugin or stand under a slug one ships, and new ones belong to one; if all are up to date nothing is touched. |
| PluginSignatures.CheckFiles | pkg/plugins/manifest.go:160-199 | In any order of the manifest: every listed file is there with the listed checksum, or the check fails. |
| PluginSignatures.GetPluginSignatureState | pkg/plugins/manifest.go:100-225 | Valid exactly for a verified manifest of this plugin and version, with all files intact, all covered from version `2.` on, and, if private, with a root address that parses to the application's scheme, host and request URI, all before it parsing; exactly when unsigned or invalid; an error names the first address that does not parse; never internal. |
| PluginSignatures.PrivateMatchIs | pkg/plugins/manifest.go:125-156 | Whether a private plugin may run here, address by address: yes exactly at home, no exactly elsewhere, and else the first bad address. |
| PluginSignatures.FindRoot | pkg/plugins/plugins.go:224-237 | The search finds the root of the next row, or there is none. |
| PluginSignatures.RootIsOutermost | pkg/plugins/plugins.go:224-237 | The root is the outermost enclosing directory that has a plugin; `/` encloses itself. |
| PluginSignatures.RootIsTop | pkg/plugins/plugins.go:224-237 | A root has no root above it. |
| PluginSignatures.RootKeepsStatus | pkg/plugins/plugins.go:404-422 | A root's own status is never rewritten, so a descendant inherits what the first pass found, whenever it is visited. |
| PluginSignatures.ValidateSignature | pkg/plugins/plugins.go:398-456 | A plugin keeps a valid, core or internal signature and else takes its root's; the verdict follows from that signature and the policy. |
| PluginSignatures.AllowUnsigned | pkg/plugins/plugins.go:458-474 | A condition set from outside decides alone; otherwise development mode or the list. |
| PluginSignatures.NeverPanics | pkg/plugins/plugins.go:452-454 | From the statuses the first pass can assign, the panic branch is out of reach. |
| PluginSignatures.Scan | pkg/plugins/plugins.go:222-247 | In any order of the map, every visited plugin ends with the status and verdict the first pass determines, and exactly the refusals are recorded. |
| PluginSignatures.FirstPass | pkg/plugins/plugins.go:346-391 | Exactly the directories where something is found whose addresses parse get a plugin, without root; its status is never internal, valid exactly if its manifest vouches for it, and unsigned exactly without a manifest. |
| PluginSignatures.AcceptedIffDeserved | pkg/plugins/plugins.go:398-456 | A backend plugin is let in exactly if it is vouched for, or without manifest and allowed to be; what counts is its own manifest if that vouches for it, it is core or it has no root, and its root's otherwise. |
| PluginSignatures.ScanDirectory | pkg/plugins/plugins.go:204-306 | Both passes in a row keep all that is found, never panic, and record exactly the visited backend plugins that do not deserve to be let in; all are visited unless registering one fails for good; nothing is recorded where signatures are not required. |
| FileWalk.Walker.Walk | pkg/util/filepath.go:47-121 | Terminates on every finite file system, cycles of links included; no target is followed twice; in every case the visits and links are those of the naive walk up to the first error of the callback, dead link or target that comes up again, and the result is that error, if there is one. |
| FileWalk.WalkPath | pkg/util/filepath.go:25-39 | The same for the entry point, which succeeds exactly if the naive walk ends without meeting a target twice; without links and with a callback that lets all pass, the visits are the pre-order. |
| FileWalk.GuardedFinished | pkg/util/filepath.go:64-70 | A walk with the guard ends well exactly if the naive one does and meets no target twice, and then is the same walk. |
| FileWalk.NeverExhausted | pkg/util/filepath.go:64-70 | With the guard, no walk nests more links than there are targets. |
| FileWalk.FuelDoesNotMatter | pkg/util/filepath.go:47-121 | So the reference walk does not depend on how deep the naive walk may nest links, beyond that number. |
| FileWalk.OnlyWhatIsThere | pkg/util/filepath.go:47-121 | On trees with distinct names and no `dist` directory, whatever the callback answers: every call is for a node that is there, below the start or a target gone to, under its path and with its name and kind; every target gone to is that of a link that is there. |
| FileWalk.AllThatIsThere | pkg/util/filepath.go:47-121 | On such trees, if all is let pass and listed, a walk that finishes makes exactly the calls for what is there below the start and the targets, and goes to exactly the targets of the links there. |
| FileWalk.PlainTour | pkg/util/filepath.go:77-118 | Without links the walk is the pre-order, a `dist` directory standing for its parent's entries. |
| FileWalk.PreorderCovers | pkg/util/filepath.go:77-118 | The pre-order visits each existing path below a directory exactly once. |
| AvatarPool.RunKeeps | pkg/api/avatar/avatar.go:160-185 | In every interleaving each task is in exactly one place, queue and workers stay within size, and tasks leave the queue in the order they entered. |
| AvatarPool.Bounded | pkg/api/avatar/avatar.go:160-173 | At most `QueueSize` tasks are queued and at most `QueueSize` are being fetched, or one if it is less. |
| AvatarPool.BoundIsMet | pkg/api/avatar/avatar.go:160-173 | All places can be in use at once, for every size. |
| AvatarPool.FetchedOnce | pkg/api/avatar/avatar.go:175-185 | A task is fetched once if it got that far and never otherwise. |
| AvatarPool.ReturnsOwnResult | pkg/api/avatar/avatar.go:175-206 | `Fetch` returns only after its own task was downloaded, with the error of that very download. |
| AvatarPool.NeverStuck | pkg/api/avatar/avatar.go:160-206 | While a task is not handed back, some step other than a new request is possible. |
| AvatarPool.EverythingReturns | pkg/api/avatar/avatar.go:160-206 | Every schedule ends: five moves per task are all there are, and a run that cannot move on has handed back every task. |
| Login.NeverMoreThanAllowed | pkg/login/brute_force_login_protection.go:15-47 | Over every run of requests one after the other, with cleanups in between, no five minutes hold more than five recorded failures of a user. |
| Login.FirstFiveAreRecorded | pkg/login/auth.go:32-69 | Of any number of wrong passwords within five minutes exactly the first five are recorded. |
| Login.CountSinceIs | pkg/services/sqlstore/login_attempt.go:67-80 | The count is the number of the user's attempts since the second asked for. |
| Login.LimitSeesAll | pkg/services/sqlstore/login_attempt.go:37-80 | Deleting old attempts never lets a request past the limit: the count over the table decides as one over all ever recorded. |
| Login.Guard.ValidateLoginAttempts | pkg/login/brute_force_login_protection.go:15-34 | Refuses exactly from five failures in the window on; a count that fails refuses too; switched off it lets all pass. |
| Login.Guard.AuthenticateUser | pkg/login/auth.go:32-69 | A request over the limit asks nobody and records nothing; others are answered, with the module noted, by the table of what database and LDAP say, and record exactly if that turns the credentials down. |
| Login.Guard.DeleteOldLoginAttempts | pkg/services/sqlstore/login_attempt.go:37-65 | Everything up to the last attempt that is too old goes. |
| Login.Guard.Serve | pkg/services/cleanup/cleanup.go:133-146 | The methods, called for any run of requests and cleanups, leave the table the run leaves; with a clock that never goes back, no window of the run's history holds more than five. |
| OverlappingLogins.BoundedByOverlap | pkg/login/brute_force_login_protection.go:15-47 | With at most c requests of a user between check and record at a time, in any interleaving and with cleanups at any moment, no five minutes hold more than 4 + c failures. |
| OverlappingLogins.BoundIsMet | pkg/login/auth.go:32-69 | For every c there is a run that records 4 + c. |
| PluginSettings.GetPluginSettings | pkg/plugins/queries.go:8-52 | Reading the map it is filling, it gives, whatever the order, if nothing is ambiguous: to each plugin its last row; without one, off to apps, on to what is neither app nor component, and to components what their app's row says. |
| PluginSettings.AnyOrderByRule | pkg/plugins/queries.go:19-49 | After any part of any order, exactly the visited plugins are settled by the rule. |
| PluginSettings.OrderIndependentIff | pkg/plugins/queries.go:19-49 | All orders agree exactly if no component without a row has a registered app without a row that is on by rule. |
| PluginSettings.AmbiguousDiffers | pkg/plugins/queries.go:36-46 | Two orders that disagree, for every ambiguous component. |
| PluginSettings.TopLevelAppsSuffice | pkg/plugins/queries.go:36-46 | Components of apps that are in no other app are never ambiguous. |
| PluginSettings.GetEnabledPlugins | pkg/plugins/queries.go:54-87 | The filter keeps every registered plugin, enabled or not. |
| DataSourceCache.GetCustomHeaders | pkg/models/datasource_cache.go:250-275 | The loop terminates on every finite set of settings and collects the headers numbered up to the first gap. |
| DataSourceCache.CustomHeadersAre | pkg/models/datasource_cache.go:250-275 | A header has a value exactly if some setting before the first gap names it and has a secret, the last such deciding. |
| DataSourceCache.ValueKeyIs | pkg/models/datasource_cache.go:259-260 | The secret of header number n stands under `httpHeaderValue` and n in decimal, without leading zeros, and under no other key. |
| DataSourceCache.MadeCarries | pkg/models/datasource_cache.go:138-207 | A transport carries the data source's name and TLS configuration, its headers, and, exactly if it signs, the access key, the secret key and the region, each from its own key. |
| DataSourceCache.Caches.DecryptedValues | pkg/models/datasource_cache.go:292-307 | Answers from the entry of the same id and time of update, else decrypts and replaces the entry. |
| DataSourceCache.Caches.GetHttpTransport | pkg/models/datasource_cache.go:138-189 | The same for transports; an error is not kept; one made anew carries what it should, and a signing one the keys in the other cache, read on the way. |
| DataSourceCache.AnswersAreFresh | pkg/models/datasource_cache.go:138-321 | In any run of reads, connections and clears over any data sources, every answer is what would be computed without caches, given that id and time of update determine a data source. |
| DataSourceCache.SecretsFreshIff | pkg/models/datasource_cache.go:138-321 | In any run of reads, connections and clears: all lookups of secrets, those of signing connections included, are fresh exactly if any two at one time of update, undisturbed in between, decrypt to the same. |
| DataSourceCache.TransportsFreshIff | pkg/models/datasource_cache.go:138-189 | The same for transports: all connections get fresh ones exactly if those that sign make what fresh secrets would make, and any two that share a transport would freshly be given the same. Clearing does not matter. |
| DataSourceCache.AnswersUseGot | pkg/models/datasource_cache.go:191-207 | What is looked up is what a read answers and what a signing connection signs with. |
| SourceMaps.GuessSourceMapLocation | pkg/api/frontendlogging/source_maps.go:65-95 | The branches and the loop over the routes compute the guess that the following rows are about. |
| SourceMaps.FirstRouteServes | pkg/api/frontendlogging/source_maps.go:81-92 | A plugin source is located by the first route whose prefix its path has. |
| SourceMaps.BuildSourcesAreLocated | pkg/api/frontendlogging/source_maps.go:71-80 | A source of the core, local or from the CDN, always has a location. |
| SourceMaps.CoreLocation | pkg/api/frontendlogging/source_maps.go:71-80 | What follows the first `/public/build/` of a core source, local or from the CDN, is looked for in the build directory. |
| SourceMaps.NoLocation | pkg/api/frontendlogging/source_maps.go:71-95 | Sources of neither the core nor a plugin have no location. |
| SourceMaps.OwnDirectoryIff | pkg/api/frontendlogging/source_maps.go:71-93 | A plugin source is looked for in that plugin's own directory exactly if it is not taken for a core source from the CDN and no route listed earlier has an id its own begins with. |
| SourceMaps.OwnMapIsFound | pkg/api/frontendlogging/source_maps.go:97-134 | From source to map: such a source is served the map beside it in its plugin's directory, under the plugin's id. |
| SourceMaps.WithoutIs | pkg/api/frontendlogging/source_maps.go:113 | Copies of a text are taken out from the left, and nothing else. |
| SourceMaps.SourceMapStore.GetSourceMap | pkg/api/frontendlogging/source_maps.go:97-134 | Maps found and maps found missing are kept, errors are not. |
| SourceMaps.AnswersOfRun | pkg/api/frontendlogging/source_maps.go:97-134 | In any run, with the file system changing at will: a call answers what the first call for its source without an error found, and looks for itself as long as there was none. |
| SourceMaps.StoreAgreesWithLookup | pkg/api/frontendlogging/source_maps.go:97-134 | With a fixed file system the store agrees with a lookup that keeps nothing, missing maps and errors included. |
| Tags.ContainsTag | pkg/models/tags.go:39-46 | Found exactly if key and value occur in the list. |
| Tags.ParsePairIs | pkg/models/tags.go:21-28 | The key is what stands before the first colon, the value what stands between it and the second, both trimmed; without a colon all is key. |
| Tags.TrimIs | pkg/models/tags.go:21-28 | Trimming takes off the spaces at both ends, all of them and nothing else. |
| Tags.ParsedIsProper | pkg/models/tags.go:13-37 | Parsed tags are distinct, with non-empty keys; keys and values are trimmed and free of colons. |
| Tags.NothingLostNothingMadeUp | pkg/models/tags.go:18-34 | A tag is in the result exactly if it has a key and some pair parses to it. |
| Tags.PrefixFirst | pkg/models/tags.go:18-34 | The tags of the first pairs come first, in order of first occurrence. |
| Tags.ParsePrintParse | pkg/models/tags.go:13-60 | Parsing, printing and parsing again gives the same list of tags, for every list of strings. |
| Tags.RoundTripIffProper | pkg/models/tags.go:13-60 | The lists of tags that survive printing and parsing are exactly the proper ones. |
| BasicAuth.DecodeOfEncode | pkg/util/encoding.go:42-53 | Base64 decodes what it encodes, for every byte string, and its text contains no space. |
| BasicAuth.EncodesByGroups | pkg/util/encoding.go:40-43 | Three bytes at a time; the last ones are filled up with zeros, their characters with padding. |
| BasicAuth.SameBits | pkg/util/encoding.go:40-43 | The four values of three bytes spell the same 24 bits, the highest first. |
| BasicAuth.AlphabetFrom0 | pkg/util/encoding.go:40-43 | The characters of 0 to 15 are those of table 1 of RFC 4648; `AlphabetFrom16`, `AlphabetFrom32` and `AlphabetFrom48` have the rest. |
| BasicAuth.HeaderRoundTripIff | pkg/util/encoding.go:40-64 | User and password come back from a built header exactly if the user has no colon. |
| BasicAuth.CredentialsSurvive | pkg/util/encoding.go:40-64 | Even with a colon in the user name a built header decodes, to two parts that spell the same credentials. |
| BasicAuth.AcceptedHeaders | pkg/util/encoding.go:46-64 | A header yields a pair exactly if it is the scheme, a space and valid base64 of that pair around its first colon. |

## Left out

- HTTP handlers, response objects, the user interface, logging, metrics and tracing: little state of their own.
- The numerics of math expressions, reducers and resampling, data frames, `WideToMany` and the conversion of plugin responses in `DSNode.Execute`: results of nodes are uninterpreted values.
- Parsers and libraries: math expressions, durations, addresses, JSON and INI text, the SQL engine and OpenPGP enter as parameters or contracts; parent sections are looked up as the INI library does.
- Pipeline.Transform: only for distinct refIDs is the answer said to be unique; with duplicates success still means a run of a valid order. Hiding results of hidden queries (pkg/expr/transform.go) is not modelled.
- ScrollManager.ScrollToVisibleSpan: pixel positions (`_scrollPast`), row mapping and the other methods of the class; traces whose parents form a cycle, on which the source does not terminate; which span is found where the memo is not exact.
- Expanders.ApplyExpander: no equivalence where a value is empty or starts with `$`, as with a value equal to its own variable: there a misplaced replacement can yield the right text by coincidence.
- Expanders.PassesAreOne: the condition is sufficient, a later expander being able to give two different texts the same value; which of several errors is reported; sorting the expanders by priority, the list being taken as sorted; what the environment and file expanders read.
- TemplateStability.EvaluateTwiceIff: the condition is for all templates at once; a single template can be stable without it.
- Configuration.ApplyEnvVariableOverrides: upper-casing is that of ASCII letters; the list of applied overrides with its redactions, and splitting command-line arguments (`getCommandLineProperties`).
- ConfigurationExpansion.LoadConfiguration: a missing or unreadable file, setting up the expanders, logging and the data path.
- DashboardSync.SyncPluginDashboards: folders, a slug being unique per organisation here; what a run does when a dashboard file changes between being listed and being imported; a plugin that is not registered.
- PluginSignatures.Scan: what happens between verdict and registration is one outcome per plugin; Windows paths; the `plugin.json` files are given, not found by walking, and are taken to be readable.
- FileWalk.Walker.Walk: the mode that does not follow links, the mode without loop detection, relative link targets, and callbacks whose answer depends on earlier calls; a path stands for the node it denotes.
- AvatarPool.RunKeeps: the time-out in `Avatar.Update`, the cache in front of the pool, and the downloaded data.
- Login.Guard.AuthenticateUser: what the database and LDAP do inside, and the collation under which user names are compared.
- PluginSettings.GetEnabledPlugins: the pinned flag, and the order of the lists.
- DataSourceCache.Caches.GetHttpTransport: sockets, time-outs and the round trips themselves; a TLS configuration is a value made from settings and secrets. That callers share the cached map, and could change it, is not captured.
- SourceMaps.OwnDirectoryIff: plugin ids that are more than one path element; `resolveSourceLocation`.
- Tags.ParsePrintParse: the `Id` field, and the difference between a nil and an empty list.
