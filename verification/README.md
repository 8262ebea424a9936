# Verified models of kconfiglib, the serial command line and UART receive

This project models four parts of TuyaOS in Dafny 4.11 and proves properties of the models. `dafny verify
dfyconfig.toml` checks everything.

**The Kconfig evaluation engine** (`kconfiglib.py`). Symbols and choices form a dependency graph; their values are
n, m, y or text, computed on demand from the values a user has assigned.

- `KconfigLang`, `Evaluation`: the finalized configuration and uncached evaluation, a recursion over dependency
  ranks. `Choices`: well-formed configurations, and what a choice guarantees in every user state. `EvaluationLaws`: what
  evaluation computes, in terms of orders, maxima and first applicable entries rather than of its own functions.
- `Dependents`, `Frames`, `UserState`, `KconfigObject`: the class `Kconfig` with its cached fields, the static
  dependency sets, recursive invalidation with its early stop, and assignment. Every method keeps every cached value
  equal to uncached evaluation of the current user values; the invariant also says that a cached value has all
  cached values it was computed from, which is what makes stopping early sound.
- `DotText`, `Loading`, `Reproduction`, `SaveLoad`, `DotConfig`: writing full and minimal `.config` files, loading
  them, the round trips, and when a replacing load forgets the past. `LoadingLaws`, `MinimalLaws`, `ConfigLaws`: what
  each line assigns, and which lines a minimal and a full configuration consist of.
- `Frozen`: evaluating each symbol once with its inputs held at their present values, which is the exact condition for
  the round trips (`SaveLoad.SurvivesSaving`): it asks nothing about files and can be checked before saving. It can
  fail: in `WithModules` a default is above the visibility that limits its saved value, in `LostMode` something depends
  on the mode of an optional choice, which is saved only through its y symbol. Without modules it holds whenever no
  such mode is missed (`Reproduction.ModesKept`).
- `MenuWalk`: the walk over the menu tree that `.config` writing makes, by links alone.
- `Assignability`: the `assignable` attributes against what assigning does. `AssignmentLaws`: what assigning promises.
- `SyncDeps`: which symbols `sync_deps()` touches. `Unchanged`, `OldConfig`, `OldConfigMenu`: what changes no value,
  and the fixpoint that `oldconfig` reaches over the menu.

**Its front end.** `MenuTree`, `Finalization`, `TreeWalk`: menu nodes as heap objects with next, list and parent
links, relinked in place by finalization and walked without a stack; the methods are proved against functions on
the tree that the links spell out. `Propagation`, `FinalizedConfig`: what propagated dependencies mean under every
valuation, and that a finalized tree satisfies what the evaluator relies on. `FinalizationLaws`: which nodes become
submenus or give up their children, and what symbols and choices collect. `DepLoop`, `EvaluationOrder`: coloured
depth-first loop detection, and which configurations have dependency ranks (`Orders`: finite relations without cycles
have ranks). Evaluation here recurses along ranks, so they are sufficient for it to end; kconfiglib.py:6024-6028 also
evaluates some configurations without (`Unranked`). `ExprText`: printing expressions and parsing them. `Macros`: the
in-place preprocessor expander against parsing a macro tree first. `MacroLaws`: what calls expand to.

**The serial line editor** (`tuya_cli.c`). `CliHistory`: the history ring as a bounded list. `Terminal`,
`CliEditor`: a one-line terminal (backspace and carriage return as in sections 8.3.5 and 8.3.15 of ECMA-48), and the
editor whose emitted bytes keep it in step with the line. `CliLaws`: what runs of keys do to the line.

**UART receive** (`tuya_uart.c`). `UartReceive`: the interrupt handler and blocking readers as interleaved steps.

Where the model needs something of a configuration, it is a property that the sanity checks of kconfiglib.py:3746-3896
look for or that finalization establishes: dependencies without loops (`Ranked`), choices whose prompts lie inside
them (`ChoicesOk`) and prompts guarded by their dependencies (`DepsOk`). `PlainConfig` stands for a configuration
without MODULES, selects of non-bool symbols and symbols with automatic values.

Where code and comments disagree, the model follows the code:

- kconfiglib.py:6486-6488: a comparison of a symbol with y makes an implicit submenu for both = and !=
  (`FinalizationLaws.DiffersShows`).
- kconfiglib.py:4880-4882: a symbol that is m-visible, selected to m and implied to y counts as assignable m only, but
  is y whatever is assigned (`Assignability.AssignableAreRespected` gives the exact condition).
- kconfiglib.py:6662-6694: loop detection does not enter a choice from a symbol that it has reached from the choice, so
  it can miss a loop through two symbols of a choice (`DepLoop.LoopMissed`; `DepLoop.Checker.CheckAll` says exactly
  which loops it sees).
- tuya_uart.c:316-321: a reader can go to sleep beside a non-empty ring (`UartReceive.LostExactly`).
- kconfiglib.py:1367-1377: a replacing load can keep an old user selection (`Loading.StaleSelection`).
- tuya_uart.c:128-131 says that the hardware buffer is read until it is empty even when the ring is full; the loop
  stops at the first byte that does not fit.
- tuya_cli.c:545-548: Backspace at the start of a non-empty line takes `insert` below 0; tuya_cli.c:266-293: Tab with
  several matches prints the line without moving `insert`. `CliEditor.BackspaceInBounds` and
  `CliEditor.TabWithSeveralMatches` give the exact conditions; the run theorem excludes just these keys.

## Model

| member | source | states |
|---|---|---|
| Choices.VisibleHasDeps | software/TuyaOS/scripts/kconfiglib/kconfiglib.py:6314-6341 | a symbol that is visible has its direct dependencies met: the maximum over prompts is attained by one prompt, whose condition is bounded by the dependency of its menu node |
| Choices.PromptWitness | software/TuyaOS/scripts/kconfiglib/kconfiglib.py:6314-6341 | a non-n visibility is the value of one of the prompt conditions |
| Choices.ModeBoundsVisibility | software/TuyaOS/scripts/kconfiglib/kconfiglib.py:6314-6341 | no symbol of a choice is more visible than the mode of the choice |
| Choices.SelDefaultIs | software/TuyaOS/scripts/kconfiglib/kconfiglib.py:5465-5478 | the default selection is a visible symbol of the choice, and is missing only if no symbol of the choice is visible |
| Choices.SelectionIsVisible | software/TuyaOS/scripts/kconfiglib/kconfiglib.py:5449-5478 | a choice in y mode selects a visible one of its symbols, and selects nothing only when none is visible; in other modes it selects nothing |
| Choices.ChoiceExclusivity | software/TuyaOS/scripts/kconfiglib/kconfiglib.py:4514-4525 | in every user state, a choice in y mode has the selected symbol y and all others n, in m mode no symbol is y, in n mode all are n; and a symbol is y if and only if it is the selection |
| EvaluationLaws.StrcmpIsOrder | software/TuyaOS/scripts/kconfiglib/kconfiglib.py:6389-6392 | comparing texts: 0 exactly for equal ones, negative exactly if the first is a proper prefix of the second or has the smaller character at the first difference |
| EvaluationLaws.RelationLaw | software/TuyaOS/scripts/kconfiglib/kconfiglib.py:6038-6070 | each of the six relations is y exactly if the numbers of the operands relate so, or, when both are strings or one is no number, if their texts do |
| EvaluationLaws.ExprLaw | software/TuyaOS/scripts/kconfiglib/kconfiglib.py:6013-6036 | the value of every expression is the minimum, maximum or mirror image of the values of its parts, or y or n as the relation holds |
| EvaluationLaws.SymVisibility | software/TuyaOS/scripts/kconfiglib/kconfiglib.py:6314-6341 | a symbol is as visible as its highest prompt condition, up to the demotions in choices and the promotion of m, in closed form |
| EvaluationLaws.ModeLaw | software/TuyaOS/scripts/kconfiglib/kconfiglib.py:5214-5232 | visibility and mode of a choice in closed form: what the user gave, at least m unless optional, at most the visibility, m only with modules |
| EvaluationLaws.SelectionLaw | software/TuyaOS/scripts/kconfiglib/kconfiglib.py:5449-5478 | only y mode selects: the user selection if visible, else the symbol of the first default that applies and is visible, else the first visible symbol |
| EvaluationLaws.ValueWithoutUser | software/TuyaOS/scripts/kconfiglib/kconfiglib.py:4484-4512 | a bool or tristate symbol outside choices that is invisible or without a user value has the highest of its first applicable default, what selects it, and, while its direct dependencies are met, what implies it; it is written exactly if it is visible or one of these is not n |
| EvaluationLaws.ValueWithUser | software/TuyaOS/scripts/kconfiglib/kconfiglib.py:4476-4512 | a visible one with a user value has the higher of that value, limited by visibility, and what selects it |
| EvaluationLaws.UnmetIsN | software/TuyaOS/scripts/kconfiglib/kconfiglib.py:4484-4497 | with dependencies unmet, nothing selecting it and no default that applies, a symbol is n and not written |
| EvaluationLaws.ChoiceSymbolValue | software/TuyaOS/scripts/kconfiglib/kconfiglib.py:4514-4522 | a choice symbol is y exactly as the selection and m exactly if it is m-visible and the user gave it m or y; it is written if visible |
| EvaluationLaws.TextLaw | software/TuyaOS/scripts/kconfiglib/kconfiglib.py:4424-4434 | string and key symbols: the user text of a visible symbol, else the text of the first default that applies |
| EvaluationLaws.NumberLaw | software/TuyaOS/scripts/kconfiglib/kconfiglib.py:4333-4413 | int and hex symbols, with the range in effect named by its index: a user text with a number in range comes back verbatim; else a default below the range gives its low end, one above its high end, one inside its own text |
| EvaluationLaws.OtherTexts | software/TuyaOS/scripts/kconfiglib/kconfiglib.py:4312-4331 | texts of bool, tristate and undefined symbols |
| KconfigObject.CachedVisibility | software/TuyaOS/scripts/kconfiglib/kconfiglib.py:4884-4911 | an item with any cached value that can change also has its visibility cached, which is what the early stop of invalidation tests |
| KconfigObject.SurvivorReads | software/TuyaOS/scripts/kconfiglib/kconfiglib.py:4890-4919 | after invalidation, every cached value that is left still has all the cached values it was computed from |
| KconfigObject.InvalidationSound | software/TuyaOS/scripts/kconfiglib/kconfiglib.py:4890-4919 | clearing an item and its dependents, stopping at items without cached visibility, leaves only values equal to uncached evaluation of the new user values |
| KconfigObject.AssignmentUnseen | software/TuyaOS/scripts/kconfiglib/kconfiglib.py:4640-4668 | an assigned user value can only be noticed through caches that have been cleared or belong to an invisible symbol |
| Frames.Keep | software/TuyaOS/scripts/kconfiglib/kconfiglib.py:3486-3559 | a cached value none of whose (static) dependencies was cleared keeps every value that its evaluation read, although evaluation short-circuits |
| Frames.Frame | software/TuyaOS/scripts/kconfiglib/kconfiglib.py:6013-6070 | cached values that are closed under what they read have the same uncached value, and the same write flag, before and after a change of user values that none of them saw |
| KconfigObject.Kconfig.constructor | software/TuyaOS/scripts/kconfiglib/kconfiglib.py:1114-1124 | a fresh object has empty caches and holds the dependency sets of the whole graph |
| KconfigObject.Kconfig.EvalExpr | software/TuyaOS/scripts/kconfiglib/kconfiglib.py:6013-6070 | the value is the lower operand of a conjunction, the higher operand of a disjunction, the mirror image for a negation, and for a comparison y exactly if it holds, between the numbers of the operands or between their texts; every cache stays equal to uncached evaluation, and every value that short-circuit evaluation reads is in its cache afterwards |
| KconfigObject.Kconfig.CompareLeaves | software/TuyaOS/scripts/kconfiglib/kconfiglib.py:6041-6070 | the three-way comparison of a relation: as strings for two string symbols, else as numbers, else as strings again |
| KconfigObject.Kconfig.LeafNumber | software/TuyaOS/scripts/kconfiglib/kconfiglib.py:6395-6403 | the number of a comparison operand, or none if its text is not one |
| KconfigObject.Kconfig.SymbolType | software/TuyaOS/scripts/kconfiglib/kconfiglib.py:4293-4304 | the dynamic type of a symbol: tristate acts as bool in y-mode choices and without modules |
| KconfigObject.Kconfig.ChoiceType | software/TuyaOS/scripts/kconfiglib/kconfiglib.py:5198-5205 | the dynamic type of a choice |
| KconfigObject.Kconfig.Visibility | software/TuyaOS/scripts/kconfiglib/kconfiglib.py:4536-4543 | the cached or computed visibility equals uncached visibility |
| KconfigObject.Kconfig.ComputeVisibility | software/TuyaOS/scripts/kconfiglib/kconfiglib.py:6314-6341 | the maximum over prompt conditions, with the demotions in choices and the promotion of m, equals uncached visibility |
| KconfigObject.Kconfig.ChoiceMode | software/TuyaOS/scripts/kconfiglib/kconfiglib.py:5214-5232 | the mode of a choice equals its uncached mode |
| KconfigObject.Kconfig.Selection | software/TuyaOS/scripts/kconfiglib/kconfiglib.py:5260-5266 | the cached or computed selection equals the uncached selection |
| KconfigObject.Kconfig.ComputeSelection | software/TuyaOS/scripts/kconfiglib/kconfiglib.py:5449-5463 | user selection if visible, else default selection |
| KconfigObject.Kconfig.SelectionFromDefaults | software/TuyaOS/scripts/kconfiglib/kconfiglib.py:5465-5478 | the first default whose condition holds and whose symbol is visible, else the first visible symbol |
| KconfigObject.Kconfig.TriValue | software/TuyaOS/scripts/kconfiglib/kconfiglib.py:4447-4525 | the tristate value equals uncached evaluation, for which the laws of EvaluationLaws hold, and afterwards the write flag of the symbol is the one of uncached evaluation |
| KconfigObject.Kconfig.ComputeWanted | software/TuyaOS/scripts/kconfiglib/kconfiglib.py:4473-4497 | user value limited by visibility, else first default, else implies if the direct dependencies hold; and whether the symbol gets written |
| KconfigObject.Kconfig.ComputePlain | software/TuyaOS/scripts/kconfiglib/kconfiglib.py:4473-4512 | the value of a symbol outside choices after selects and the promotion of m |
| KconfigObject.Kconfig.ComputeChoiceSymbol | software/TuyaOS/scripts/kconfiglib/kconfiglib.py:4514-4522 | the value of a choice symbol |
| KconfigObject.Kconfig.ActiveBounds | software/TuyaOS/scripts/kconfiglib/kconfiglib.py:4337-4355 | the first range whose condition holds |
| KconfigObject.Kconfig.ComputeNumber | software/TuyaOS/scripts/kconfiglib/kconfiglib.py:4333-4413 | int and hex values: the user value if it is inside the active range, else the first default, clamped into it |
| KconfigObject.Kconfig.ComputeText | software/TuyaOS/scripts/kconfiglib/kconfiglib.py:4424-4434 | string and key values |
| KconfigObject.Kconfig.StrValue | software/TuyaOS/scripts/kconfiglib/kconfiglib.py:4306-4445 | the string value equals uncached evaluation, for which the laws of EvaluationLaws hold, with the write flag brought up to date |
| KconfigObject.Kconfig.Assignable | software/TuyaOS/scripts/kconfiglib/kconfiglib.py:4838-4882 | the assignable values of a symbol or choice equal their uncached definition |
| KconfigObject.Kconfig.RecInvalidate | software/TuyaOS/scripts/kconfiglib/kconfiglib.py:4890-4919 | terminates in cyclic graphs; clears the item and everything reachable from it through dependents with cached visibility, and no more than any set that is closed under dependents and contains the item |
| KconfigObject.Kconfig.RecInvalidateIfHasPrompt | software/TuyaOS/scripts/kconfiglib/kconfiglib.py:4921-4941 | the same, for symbols that have a prompt; nothing is cleared otherwise |
| KconfigObject.Kconfig.InvalidateAssigned | software/TuyaOS/scripts/kconfiglib/kconfiglib.py:4651-4668 | after the user state has changed, restores agreement of all caches with uncached evaluation |
| KconfigObject.Kconfig.SetValue | software/TuyaOS/scripts/kconfiglib/kconfiglib.py:4582-4670 | stores well-formed values only, makes y the user selection of the choice, and keeps every cache equal to uncached evaluation of the new user state |
| KconfigObject.Kconfig.UnsetValue | software/TuyaOS/scripts/kconfiglib/kconfiglib.py:4672-4679 | removes exactly the user value of the symbol and keeps every cache equal to uncached evaluation |
| KconfigObject.Kconfig.SetChoiceMode | software/TuyaOS/scripts/kconfiglib/kconfiglib.py:5269-5308 | sets exactly the mode of the choice if acceptable, and keeps every cache equal to uncached evaluation |
| KconfigObject.Kconfig.UnsetChoiceValue | software/TuyaOS/scripts/kconfiglib/kconfiglib.py:5310-5317 | removes exactly the mode and user selection of the choice, and keeps every cache equal to uncached evaluation |
| Assignability.AssignedValue | software/TuyaOS/scripts/kconfiglib/kconfiglib.py:4472-4512 | the value of a visible symbol outside choices after assigning any tristate value to it: limited by visibility, raised by selects, m promoted by type or implies |
| Assignability.AssignableAreRespected | software/TuyaOS/scripts/kconfiglib/kconfiglib.py:4838-4882 | for every visible bool or tristate symbol outside choices: the assignable values are exactly the values that assigning respects, as the documentation of the attribute (4065-4076) promises, if and only if the symbol is not m-visible, selected to m and implied to y at once |
| Assignability.LockMisleads | software/TuyaOS/scripts/kconfiglib/kconfiglib.py:4865-4882 | a configuration in which a symbol can only be assigned m, and becomes y when m is assigned |
| Assignability.ChoiceSymbolRespected | software/TuyaOS/scripts/kconfiglib/kconfiglib.py:4855-4857 | a y-visible choice symbol can be assigned y only, and is y when it is |
| Assignability.AssignableModesAreRespected | software/TuyaOS/scripts/kconfiglib/kconfiglib.py:5430-5447 | for every visible choice: the assignable modes are exactly the modes that assigning respects |
| AssignmentLaws.SetSymLaw | software/TuyaOS/scripts/kconfiglib/kconfiglib.py:4582-4668 | a value that does not fit the type of its symbol changes nothing; one that fits is stored for that symbol alone, n, m and y given as texts included, and y becomes the user selection of a choice |
| AssignmentLaws.SetModeLaw | software/TuyaOS/scripts/kconfiglib/kconfiglib.py:5269-5308 | a choice takes n and y as its mode, and m exactly if it is tristate; nothing else changes |
| AssignmentLaws.GivenText | software/TuyaOS/scripts/kconfiglib/kconfiglib.py:4582-4640 | a text given to a visible string or key symbol is its value afterwards, as is a number in range given to a visible int or hex symbol; a number out of range leaves it as if it had no user value, and a malformed text changes nothing |
| DotText.UnescapeEscape | software/TuyaOS/scripts/kconfiglib/kconfiglib.py:6204-6222 | unescape(escape(s)) is s, for every string |
| DotText.QuotedEscape | software/TuyaOS/scripts/kconfiglib/kconfiglib.py:7194-7196 | the string-literal pattern finds exactly the escaped text that was written, whatever follows its closing quote |
| DotText.ParseSetLine | software/TuyaOS/scripts/kconfiglib/kconfiglib.py:981-983 | a written assignment line, after stripping, is taken apart into its name and its value |
| DotText.ParseUnsetLine | software/TuyaOS/scripts/kconfiglib/kconfiglib.py:981-983 | a written "is not set" line is recognized as such and gives its name |
| Loading.ApplyEffect | software/TuyaOS/scripts/kconfiglib/kconfiglib.py:1297-1352 | what one decoded line does to the mode and user selection of each choice |
| Loading.ApplySymEffect | software/TuyaOS/scripts/kconfiglib/kconfiglib.py:1283-1365 | what one decoded line does to the user value of each symbol |
| Loading.LoadsAgree | software/TuyaOS/scripts/kconfiglib/kconfiglib.py:1262-1352 | from any two states, the same lines leave the same values, modes and selections wherever a line assigned something |
| Loading.PickSurvives | software/TuyaOS/scripts/kconfiglib/kconfiglib.py:1297-1311 | a user selection is dropped by no line, and set only by a line that assigns y in its choice |
| Loading.StaleSelection | software/TuyaOS/scripts/kconfiglib/kconfiglib.py:1367-1377 | a file that assigns m but never y to the symbols of a tristate choice keeps an old user selection alive through a replacing load: an earlier state for which the results differ |
| Loading.ReplaceIsHistoryFree | software/TuyaOS/scripts/kconfiglib/kconfiglib.py:1247-1377 | for every sequence of lines: a replacing load gives the same user values, modes and selections from all earlier states if and only if no choice is assigned m without also being assigned y |
| LoadingLaws.LiteralLaw | software/TuyaOS/scripts/kconfiglib/kconfiglib.py:7194-7196 | a right-hand side starts with a string literal that stands for a text exactly if it is a quote, characters that stand for themselves or follow a backslash, spelling that text, and a quote |
| LoadingLaws.SetLineAssigns | software/TuyaOS/scripts/kconfiglib/kconfiglib.py:1267-1330 | for every assignment line to a defined symbol, whoever wrote it: it assigns n, m or y by the first character to a bool or tristate symbol, what a literal spells to a string, the leading name to a key, the whole right-hand side to an int or hex, and otherwise nothing |
| LoadingLaws.UnsetLineAssigns | software/TuyaOS/scripts/kconfiglib/kconfiglib.py:1335-1358 | an "is not set" line gives n to bool and tristate symbols and nothing to others, whatever follows it |
| LoadingLaws.OtherLinesAssignNothing | software/TuyaOS/scripts/kconfiglib/kconfiglib.py:1274-1340 | unknown names and lines of neither form assign nothing |
| LoadingLaws.TriLineLoads | software/TuyaOS/scripts/kconfiglib/kconfiglib.py:1283-1295 | after CONFIG_X=n, =m or =y the bool or tristate symbol X has that user value and is marked as set; m for a bool changes nothing |
| Reproduction.VisibleDropped | software/TuyaOS/scripts/kconfiglib/kconfiglib.py:1710-1745 | a visible bool or tristate symbol is left out of a minimal configuration only if it is selected to y or its defaults, selects and implies give its value |
| Reproduction.VisibleTextDropped | software/TuyaOS/scripts/kconfiglib/kconfiglib.py:1725-1733 | a visible string, int or hex symbol is left out only if its default has its text |
| Reproduction.SelectionKept | software/TuyaOS/scripts/kconfiglib/kconfiglib.py:1735-1741 | the selection of a choice is left out only if the choice selects it by default |
| Reproduction.SameMode | software/TuyaOS/scripts/kconfiglib/kconfiglib.py:5214-5232 | a choice gets its mode back from the saved y symbol, except an optional y-mode choice without visible symbols, which falls to n |
| Reproduction.SameSel | software/TuyaOS/scripts/kconfiglib/kconfiglib.py:5449-5478 | a choice gets its selection back from the saved values |
| Reproduction.SameTri | software/TuyaOS/scripts/kconfiglib/kconfiglib.py:4447-4525 | by induction on dependency rank: a user state that holds the saved values, or any subset that drops only what may be dropped, gives every symbol its tristate value back, symbols inside other choices and below choice symbols included |
| Reproduction.SameStr | software/TuyaOS/scripts/kconfiglib/kconfiglib.py:4306-4445 | the same for string values |
| SaveLoad.SplitJoin | software/TuyaOS/scripts/kconfiglib/kconfiglib.py:1268-1271 | lines written one after the other are read back as the same lines |
| ConfigLaws.LinesRead | software/TuyaOS/scripts/kconfiglib/kconfiglib.py:1268-1271 | a file is read as its lines whatever their ends, newline, carriage return or both, and an unfinished line at the end counts unless it is empty |
| SaveLoad.DecodeWritten | software/TuyaOS/scripts/kconfiglib/kconfiglib.py:4545-4573 | the line written for a symbol, with or without modules, is read back as an assignment of its value to it |
| SaveLoad.ConfigDecodes | software/TuyaOS/scripts/kconfiglib/kconfiglib.py:1598-1671 | a full configuration decodes to the saved value of every written symbol once, in the order of the walk, whatever headings stand between them |
| SaveLoad.LoadSaves | software/TuyaOS/scripts/kconfiglib/kconfiglib.py:1247-1377 | loading the saved values of distinct symbols leaves exactly these values, the modes that y and m choice symbols imply, and the selections of y symbols; other selections are those of the earlier state |
| SaveLoad.LoadedIs | software/TuyaOS/scripts/kconfiglib/kconfiglib.py:1367-1377 | the user values after everything that no line set has been unset, as a function of the saved values and the earlier state |
| SaveLoad.SaveThenLoad | software/TuyaOS/scripts/kconfiglib/kconfiglib.py:1598-1671 | writing the full configuration and loading it over any earlier user state reproduces the tristate and string value of every symbol if and only if each symbol, evaluated once from the present values of what it mentions and with its saved user value, keeps its text; without modules that is so whenever nothing outside a choice depends on its mode when that mode is lost |
| SaveLoad.MinDecodes | software/TuyaOS/scripts/kconfiglib/kconfiglib.py:1710-1745 | a minimal configuration decodes to the saved values of exactly the symbols that none of the three skip rules drops |
| SaveLoad.MinConfigThenLoad | software/TuyaOS/scripts/kconfiglib/kconfiglib.py:1710-1745 | the same equivalence for minimal configurations, where each skip rule may only drop what defaults, selects and default selections bring back |
| MinimalLaws.TriKept | software/TuyaOS/scripts/kconfiglib/kconfiglib.py:1720-1730 | a bool or tristate symbol outside choices has a line in the minimal configuration if and only if it is more visible than selected and its value differs from the highest of default, selects and implies |
| MinimalLaws.UnsetNotKept | software/TuyaOS/scripts/kconfiglib/kconfiglib.py:1728-1730 | a bool or tristate symbol outside choices that the user has not set has no line |
| MinimalLaws.TextKept | software/TuyaOS/scripts/kconfiglib/kconfiglib.py:1720-1730 | a string, key, int or hex symbol has a line if and only if it is more visible than selected, not automatic, and does not have the text of its first applicable default |
| MinimalLaws.ChoiceSymbolKept | software/TuyaOS/scripts/kconfiglib/kconfiglib.py:1728-1741 | a choice symbol has a line if and only if it is visible and not n, except a y bool symbol that its non-optional choice would select by default |
| MinimalLaws.KeptValue | software/TuyaOS/scripts/kconfiglib/kconfiglib.py:1743-1743 | every line assigns the current value |
| ConfigLaws.ConfigLaw | software/TuyaOS/scripts/kconfiglib/kconfiglib.py:1619-1668 | the lines of a full configuration are, stop by stop, the line of each written symbol where the walk first meets it, after a blank line exactly if the last thing written was the end of a menu, boxed headings, and ends of menus |
| SaveLoad.SaveAssigns | software/TuyaOS/scripts/kconfiglib/kconfiglib.py:1294-1310 | the assignment that saves a choice symbol sets the mode to y exactly for the selection of the choice, and to m exactly for its m symbols |
| Frozen.FrozenStr | software/TuyaOS/scripts/kconfiglib/kconfiglib.py:4306-4445 | replacing every mentioned symbol by its present value does not change what a symbol evaluates to in another user state, if the two states agree on all lower-ranked symbols |
| Frozen.SameIffKept | software/TuyaOS/scripts/kconfiglib/kconfiglib.py:4306-4525 | two user states, with or without modules, give the same values to all symbols if and only if each symbol, evaluated once in the second state from the values that its inputs have in the first, keeps its text |
| LostMode.LostModeChangesValues | software/TuyaOS/scripts/kconfiglib/kconfiglib.py:5214-5232 | an optional choice that is y without any visible symbol loses its mode in a file: a well-formed configuration without modules where writing the file and loading it turns a symbol in a submenu of a choice symbol from y to n |
| WithModules.ModulesBreakTheRoundTrip | software/TuyaOS/scripts/kconfiglib/kconfiglib.py:4476-4490 | a configuration with modules where writing the file and loading it turns a symbol from y to m: a tristate symbol with m visibility and an unconditional default y |
| Unchanged.OwnValueKept | software/TuyaOS/scripts/kconfiglib/kconfiglib.py:4476-4510 | for every bool or tristate symbol outside choices: making its value its user value, as loading does, keeps the value if and only if it is within the visibility or the symbol is selected or implied to y |
| DotConfig.ReadConfigString | software/TuyaOS/scripts/kconfiglib/kconfiglib.py:4545-4573 | the line for a symbol, from caches, is the one of uncached evaluation |
| DotConfig.ConfigContents | software/TuyaOS/scripts/kconfiglib/kconfiglib.py:1598-1671 | the lines of the full configuration, from caches, are those of uncached evaluation, each symbol once and headings only where shown |
| DotConfig.ReadStrDefault | software/TuyaOS/scripts/kconfiglib/kconfiglib.py:4943-4976 | the default text of a symbol, from caches |
| DotConfig.MinConfigContents | software/TuyaOS/scripts/kconfiglib/kconfiglib.py:1710-1745 | the lines of the minimal configuration, from caches, are those of uncached evaluation |
| DotConfig.LoadLineInto | software/TuyaOS/scripts/kconfiglib/kconfiglib.py:1267-1352 | one line changes the user state as decoding and assigning it does, and keeps the caches right |
| DotConfig.LoadConfig | software/TuyaOS/scripts/kconfiglib/kconfiglib.py:1247-1377 | loads a file, replacing or adding, with the resulting user state that of the line-by-line specification |
| DotConfig.UnsetOthers | software/TuyaOS/scripts/kconfiglib/kconfiglib.py:1367-1377 | unsets exactly the symbols and choices that no line has set |
| MenuWalk.MenuStops | software/TuyaOS/scripts/kconfiglib/kconfiglib.py:1619-1668 | walking the menu by the list, next and parent links alone meets symbols, headings and ends of menus in the order of the tree, with an end for each menu below the top that has children, and terminates |
| MenuWalk.StopsHaveSyms | software/TuyaOS/scripts/kconfiglib/kconfiglib.py:1646-1654 | every symbol in the menu is met |
| ConfigLaws.WalkMeets | software/TuyaOS/scripts/kconfiglib/kconfiglib.py:1619-1668 | the walk meets the symbols of the tree in definition order, and exactly the headings of its menus and comments |
| MenuWalk.SaveMenuAndReload | software/TuyaOS/scripts/kconfiglib/kconfiglib.py:1598-1671 | end to end: walking the menu, writing the configuration along it and reading it back leaves every value as it was if and only if every symbol keeps its text when evaluated once as above |
| DotConfig.SaveAndReload | software/TuyaOS/scripts/kconfiglib/kconfiglib.py:1598-1671 | end to end through the caches: writing the configuration and reading it back leaves every value as it was if and only if every symbol keeps its text when evaluated once as above |
| DotConfig.MinSaveAndReload | software/TuyaOS/scripts/kconfiglib/kconfiglib.py:1710-1745 | the same for the minimal configuration |
| SyncDeps.LoadOldVals | software/TuyaOS/scripts/kconfiglib/kconfiglib.py:1856-1902 | the old values are those of the last readable line of each symbol, and the names of symbols that no longer exist are reported |
| SyncDeps.Sync | software/TuyaOS/scripts/kconfiglib/kconfiglib.py:1809-1854 | touches exactly the symbols that differ from their old values, reports exactly the recorded names that no longer exist, and writes the current values as the new old values |
| SyncDeps.AllWrittenRecorded | software/TuyaOS/scripts/kconfiglib/kconfiglib.py:1918-1925 | reading auto.conf back gives each symbol the value it was written with, and no value to those that were not |
| SyncDeps.TouchedIffChanged | software/TuyaOS/scripts/kconfiglib/kconfiglib.py:1815-1847 | between two calls a symbol is touched if and only if its autoconf.h line has changed, or it is a hex symbol whose values differ only in the 0x prefix: no change is missed, and the converse fails just there |
| Unchanged.AlikeIsSame | software/TuyaOS/scripts/kconfiglib/kconfiglib.py:4447-4525 | a change of user values and selections that no symbol and no choice notices itself changes no visibility, mode, selection, value or assignable set anywhere |
| OldConfig.SymStepQuiet | software/TuyaOS/scripts/kconfiglib/oldconfig.py:120-130 | giving a symbol outside y-mode choices a value that leaves its text as it was changes nothing anywhere and leaves every settled item settled |
| OldConfig.ChoiceStepQuiet | software/TuyaOS/scripts/kconfiglib/oldconfig.py:179-212 | in a y-mode choice, confirming the current selection or giving another visible symbol n changes no value |
| OldConfig.AskSym | software/TuyaOS/scripts/kconfiglib/oldconfig.py:98-130 | the answers before the last one used were calls for help or not accepted; the last one is given to the symbol, an empty one standing for its current text and hex numbers getting 0x in front; a change is reported if and only if its text differs afterwards, and otherwise no value of any symbol has changed; without an acceptable answer nothing changes |
| OldConfig.AskChoice | software/TuyaOS/scripts/kconfiglib/oldconfig.py:159-200 | the answers before the last one used chose nothing; the last one makes the option with that number, or the current selection if it is empty, the user selection and the selection; a change is reported if and only if that symbol was not y |
| OldConfig.Choose | software/TuyaOS/scripts/kconfiglib/oldconfig.py:179-200 | giving y to a visible symbol of a choice makes it the user selection and the selection |
| OldConfig.NothingNew | software/TuyaOS/scripts/kconfiglib/oldconfig.py:135-148 | whether the choice has a visible user selection and no other visible symbol without a user value |
| OldConfig.SetOthers | software/TuyaOS/scripts/kconfiglib/oldconfig.py:202-212 | gives every other visible symbol of the choice a user value without changing any value |
| OldConfig.Visit | software/TuyaOS/scripts/kconfiglib/oldconfig.py:70-157 | asks if and only if the place has a prompt, is visible and has something to ask, and then does what the answers say, giving the other visible symbols of a choice n; a visit that reports no change has changed no value and leaves the item settled |
| OldConfig.Pass | software/TuyaOS/scripts/kconfiglib/oldconfig.py:50-54 | visits all places in turn, each with the answers that the one before has left; a pass that reports no change has changed no value at all, and every item with a prompt it passed is settled |
| OldConfig.Run | software/TuyaOS/scripts/kconfiglib/oldconfig.py:50-57 | the user state is that after some passes, each with the answers left by the one before; when the loop ends, every visible symbol outside y-mode choices with other than one assignable value has a user value, and every choice with y-visible symbols has a visible user selection and no other visible symbol without a user value; the loop ends as soon as the input does |
| OldConfigMenu.WalkCovers | software/TuyaOS/scripts/kconfiglib/oldconfig.py:52-56 | walking a menu reaches every prompt of every symbol and choice that its nodes belong to |
| OldConfigMenu.RunOverMenu | software/TuyaOS/scripts/kconfiglib/oldconfig.py:50-57 | the same over the menu tree itself, walked by its links: the passes visit the prompts in menu order, and when the loop ends, nothing is left to ask at any symbol or choice of the configuration that the menu defines |
| DepLoop.TopologicalIsLoopFree | software/TuyaOS/scripts/kconfiglib/kconfiglib.py:6587-6660 | an order in which every dependency, and every step from a symbol through its choice to another symbol, leads backwards rules out loops of any length |
| DepLoop.Checker.CheckSym | software/TuyaOS/scripts/kconfiglib/kconfiglib.py:6587-6660 | returns normally only with the symbol finished and the order still topological; otherwise it has a chain of distinct items that leads back to something being visited, or a complete loop that does not just turn back at a choice |
| DepLoop.Checker.CheckChoice | software/TuyaOS/scripts/kconfiglib/kconfiglib.py:6662-6694 | the same for a choice, possibly entered from one of its symbols: never a chain that only leads back to that symbol, which is why it is skipped |
| DepLoop.Checker.CheckAll | software/TuyaOS/scripts/kconfiglib/kconfiglib.py:1117-1120 | raises if and only if there is a loop that enters choices only from symbols from which their choice has been looked at; a reported loop has distinct items and does not just turn back at a choice; so a configuration without loops is always accepted; and when it returns normally, a choice has been looked at from its first symbol alone, if no symbol before that one leads to it |
| DepLoop.OneEntrance | software/TuyaOS/scripts/kconfiglib/kconfiglib.py:6646-6650 | when no loop is found, each choice has been looked at from at most one of its symbols, so that loops through its other symbols go unseen |
| DepLoop.LoopMissed | software/TuyaOS/scripts/kconfiglib/kconfiglib.py:6672-6682 | a graph that loop detection accepts although it has a loop through two symbols of a choice |
| EvaluationOrder.RanksExist | software/TuyaOS/scripts/kconfiglib/kconfiglib.py:1117-1120 | a configuration, choices and modules included, whose graph has no loop has ranks, along which evaluation recurses and therefore ends |
| EvaluationOrder.RankedIsLoopFree | software/TuyaOS/scripts/kconfiglib/kconfiglib.py:6646-6660 | where there are ranks there is no loop, not even through the symbols of a choice |
| EvaluationOrder.RankableIff | software/TuyaOS/scripts/kconfiglib/kconfiglib.py:1114-1124 | a configuration has ranks if and only if its graph has no loop and MODULES depends, however indirectly, on nothing of tristate type |
| EvaluationOrder.CheckConfig | software/TuyaOS/scripts/kconfiglib/kconfiglib.py:1114-1120 | loop detection accepts every configuration that has ranks, and rejects only ones without, with a real loop; it accepts no others (if MODULES depends on nothing of tristate type) whenever loops that enter a choice through a symbol do not occur alone, as without choices |
| Unranked.UnrankedAccepted | software/TuyaOS/scripts/kconfiglib/kconfiglib.py:6672-6682 | a configuration, a choice of three symbols one of which depends on another, that has no ranks and is accepted by loop detection |
| Unranked.ShortCircuitUnranked | software/TuyaOS/scripts/kconfiglib/kconfiglib.py:6024-6028 | ranks are not necessary: a loop through an operand that short-circuiting never evaluates leaves no ranks |
| Unranked.UnusedTypeUnranked | software/TuyaOS/scripts/kconfiglib/kconfiglib.py:4447-4512 | ranks are not necessary: a tristate symbol whose type evaluation never asks for, below MODULES, leaves no ranks |
| MenuTree.FinalizedKeeps | software/TuyaOS/scripts/kconfiglib/kconfiglib.py:3576-3655 | implicit submenus, flattening and if-removal keep the sequence of all other nodes in definition order, with their propagated attributes, whatever nodes are taken into a submenu |
| MenuTree.FinalizedWithin | software/TuyaOS/scripts/kconfiglib/kconfiglib.py:3576-3655 | no node is duplicated |
| MenuTree.FlatKeeps | software/TuyaOS/scripts/kconfiglib/kconfiglib.py:6504-6530 | flattening a level keeps every node in order and leaves the if nodes of the level without children |
| MenuTree.SpellsAppend | software/TuyaOS/scripts/kconfiglib/kconfiglib.py:6515-6530 | a chain of nodes is linked exactly if its two parts are and the first leads to the second |
| Finalization.Flatten | software/TuyaOS/scripts/kconfiglib/kconfiglib.py:6504-6530 | relinks a chain in place into its flattened form, with all parent links right |
| Finalization.RemoveIfs | software/TuyaOS/scripts/kconfiglib/kconfiglib.py:6533-6556 | relinks the children of a node in place without the if nodes |
| Finalization.PropagateDeps | software/TuyaOS/scripts/kconfiglib/kconfiglib.py:3657-3707 | rewrites the conditions of all children in place and leaves the links alone |
| Finalization.Finalizer.AddProps | software/TuyaOS/scripts/kconfiglib/kconfiglib.py:3709-3741 | adds the dependencies, defaults, ranges, selects and implies of a node to its symbol and to the symbols it selects and implies |
| Finalization.Finalizer.Gather | software/TuyaOS/scripts/kconfiglib/kconfiglib.py:3599-3607 | finalizes the following nodes that depend on the symbol, one after the other, and gives each the symbol as its parent |
| Finalization.Finalizer.FinalizeNode | software/TuyaOS/scripts/kconfiglib/kconfiglib.py:3576-3655 | in place: the next, list and parent fields spell out the finalized tree, the symbols have collected the properties of its nodes in definition order, and the choices those of their nodes, inner ones first |
| Finalization.Finalizer.FinalizeChoice | software/TuyaOS/scripts/kconfiglib/kconfiglib.py:6555-6584 | adds the dependencies and defaults of a choice node and the symbols directly below it to the choice, makes it their choice, gives the choice the type of its first typed symbol and its untyped symbols the type of the choice |
| FinalizationLaws.ChoiceLists | software/TuyaOS/scripts/kconfiglib/kconfiglib.py:3645-3655 | a choice has the symbols and the defaults of all its nodes, in turn, and depends on the highest of their dependencies |
| FinalizationLaws.ChoiceTypeLaw | software/TuyaOS/scripts/kconfiglib/kconfiglib.py:6572-6584 | a choice without a type gets that of its first typed symbol, exactly its untyped symbols get the type of the choice, and nothing else changes its type |
| FinalizationLaws.ListedSymsLaw | software/TuyaOS/scripts/kconfiglib/kconfiglib.py:6561-6566 | the symbols of a choice node are exactly those directly below it |
| Finalization.TidyRegistrations | software/TuyaOS/scripts/kconfiglib/kconfiglib.py:3641-3651 | flattening and removing if nodes loses and reorders no choice node and no symbol listed below one |
| FinalizationLaws.MenuDependsLaw | software/TuyaOS/scripts/kconfiglib/kconfiglib.py:6467-6492 | an expression depends on a symbol exactly if one of its operands under && is the symbol, a comparison of it for = m, = y or != n in either order, or != y |
| FinalizationLaws.SubmenuHidden | software/TuyaOS/scripts/kconfiglib/kconfiglib.py:6495-6501 | an item of the implicit submenu of a symbol that is n has a condition that is n, unless no operand but != y makes it depend on the symbol |
| FinalizationLaws.DiffersShows | software/TuyaOS/scripts/kconfiglib/kconfiglib.py:6486-6488 | the exception is real: an item with the prompt condition FOO != y becomes part of the submenu of FOO and shows while FOO is n |
| FinalizationLaws.SubmenuLaw | software/TuyaOS/scripts/kconfiglib/kconfiglib.py:3604-3620 | a symbol gets as its submenu exactly the run of following nodes that depend on it, up to the first that does not, each finalized first |
| FinalizationLaws.TidyLaw | software/TuyaOS/scripts/kconfiglib/kconfiglib.py:6504-6556 | after flattening and removing if nodes, a level consists of its nodes with a prompt and its choices, children kept, and in place of every other node that node, unless it is an if, followed by its children in turn |
| TreeWalk.FinalizedIfFree | software/TuyaOS/scripts/kconfiglib/kconfiglib.py:6533-6556 | no if node is left anywhere below a finalized node |
| TreeWalk.DefinitionOrderKept | software/TuyaOS/scripts/kconfiglib/kconfiglib.py:3576-3655 | the nodes below the finalized top node, in preorder, are the defined nodes in the order of their definitions |
| TreeWalk.NodeIter | software/TuyaOS/scripts/kconfiglib/kconfiglib.py:1927-1976 | visits every node below the top node exactly once in preorder (or only the first node of each symbol), using the list, next and parent links alone, and terminates |
| TreeWalk.YieldedUnique | software/TuyaOS/scripts/kconfiglib/kconfiglib.py:1944-1976 | with unique_syms a node is visited if and only if it belongs to no symbol, or to one that no earlier node belongs to |
| FinalizedConfig.FinalizeThenIterate | software/TuyaOS/scripts/kconfiglib/kconfiglib.py:1097-1098 | finalizing in place and then iterating visits exactly the defined nodes in the order of their definitions |
| Propagation.MakeAndIsMin | software/TuyaOS/scripts/kconfiglib/kconfiglib.py:2883-2895 | the simplified conjunction has the minimum of the two values, under every valuation |
| Propagation.MakeOrIsMax | software/TuyaOS/scripts/kconfiglib/kconfiglib.py:2897-2909 | the simplified disjunction has the maximum of the two values |
| Propagation.FinalizedMeans | software/TuyaOS/scripts/kconfiglib/kconfiglib.py:3657-3707 | under every valuation, each finalized dependency, prompt, default, range, select and imply condition is the minimum of the written one, the dependencies of the node and all nodes above it (down from the nearest choice, which contributes its mode), and for prompts of symbols and choices all enclosing visible ifs |
| Propagation.CollectedMeans | software/TuyaOS/scripts/kconfiglib/kconfiglib.py:3709-3741 | after finalization the reverse dependency of a symbol is the maximum over all selects of it of the minimum of selector and condition, the weak reverse dependency the same over implies, and the direct dependency the maximum over its definitions |
| FinalizationLaws.CollectedLists | software/TuyaOS/scripts/kconfiglib/kconfiglib.py:3709-3741 | each symbol has the defaults, ranges, selects and implies of all its definitions, in the order of the files, each under the minimum of its written condition and the dependencies it stands under |
| FinalizedConfig.EvIsValue | software/TuyaOS/scripts/kconfiglib/kconfiglib.py:6013-6036 | evaluation in a user state is one of the valuations that propagation respects |
| FinalizedConfig.FinalizedGuarded | software/TuyaOS/scripts/kconfiglib/kconfiglib.py:3657-3707 | in every finalized tree, prompts are guarded by the dependencies of their nodes and by the mode of the choice that holds them, despite the y and n simplifications |
| FinalizedConfig.CollectedFromChildren | software/TuyaOS/scripts/kconfiglib/kconfiglib.py:3709-3741 | what symbols have collected when finalization ends comes from the nodes of the finalized menu, in order |
| FinalizedConfig.FinalizedDepsOk | software/TuyaOS/scripts/kconfiglib/kconfiglib.py:3709-3723 | a symbol whose nodes and direct dependency are those that finalizing a menu leaves satisfies what the save and load results need: a visible symbol has its direct dependencies met |
| FinalizedConfig.FinalizedChoiceSymOk | software/TuyaOS/scripts/kconfiglib/kconfiglib.py:3836-3896 | a symbol that finalization registered with a choice is listed by it, and if all its prompts lie directly in the choice, as the sanity check asks, it is guarded by the mode of the choice, as choice exclusivity needs |
| FinalizedConfig.TypesReachAll | software/TuyaOS/scripts/kconfiglib/kconfiglib.py:6572-6584 | if the files give a type to a choice or to one of its symbols, every symbol of the choice ends up with a type |
| ExprText.PrintThenParse | software/TuyaOS/scripts/kconfiglib/kconfiglib.py:6088-6129 | the tokens that an expression prints as can be parsed if and only if it mentions no choice, and give the expression back then, with chains of the same operator nested to the right |
| ExprText.SplitsKept | software/TuyaOS/scripts/kconfiglib/kconfiglib.py:6159-6201 | re-nesting keeps the operands of top-level chains of the same operator, in order |
| ExprText.NestedValue | software/TuyaOS/scripts/kconfiglib/kconfiglib.py:6013-6036 | re-nesting keeps the value of an expression in every user state |
| ExprText.PrintThenParseMeaning | software/TuyaOS/scripts/kconfiglib/kconfiglib.py:3396-3480 | for every expression without choices, and for no other: printing it and parsing it back succeeds and consumes all tokens; it keeps its value in every user state |
| ExprText.ParsedGroups | software/TuyaOS/scripts/kconfiglib/kconfiglib.py:3396-3480 | a disjunction of conjunctions written without parentheses parses completely, to the maximum over the parts of the minimum of their operands: and binds tighter than or |
| Macros.ParseCallFaithful | software/TuyaOS/scripts/kconfiglib/kconfiglib.py:2762-2822 | the macro tree of a call prints back as the text it was parsed from |
| Macros.ParseWholeFaithful | software/TuyaOS/scripts/kconfiglib/kconfiglib.py:2680-2692 | the macro tree of a text prints back as the text |
| Macros.CharStep | software/TuyaOS/scripts/kconfiglib/kconfiglib.py:2782-2791 | a parenthesis, or a comma inside parentheses, only counts nesting |
| Macros.CommaStep | software/TuyaOS/scripts/kconfiglib/kconfiglib.py:2811-2818 | a comma outside parentheses ends an argument |
| Macros.MacroStep | software/TuyaOS/scripts/kconfiglib/kconfiglib.py:2820-2822 | expanding a nested macro in place and going on behind its value gives what evaluating the tree gives: delimiters produced by an expansion never change the argument structure |
| Macros.Preprocessor.ExpandMacro | software/TuyaOS/scripts/kconfiglib/kconfiglib.py:2762-2822 | splice-and-rescan gives the value and the remaining text that parsing the call first and then evaluating the tree gives, leaves all expansion counters as they were, and terminates |
| Macros.Preprocessor.FnVal | software/TuyaOS/scripts/kconfiglib/kconfiglib.py:2824-2878 | a call of a variable, function or environment variable gives what the specification gives, with the recursion limit of the counters |
| Macros.Preprocessor.ExpandVariable | software/TuyaOS/scripts/kconfiglib/kconfiglib.py:2845-2848 | expands a variable with its counter raised, and restores the counter |
| Macros.Preprocessor.ExpandWhole | software/TuyaOS/scripts/kconfiglib/kconfiglib.py:2680-2692 | expanding a text in place equals parsing it into a macro tree and evaluating the tree |
| MacroLaws.PositionalArgument | software/TuyaOS/scripts/kconfiglib/kconfiglib.py:2795-2803 | a call stands for the parts between its commas outside parentheses; when its name is a number k, between texts without macros, it gives part k of the enclosing call, counted from the end if negative, whatever else has that name |
| MacroLaws.NamedCall | software/TuyaOS/scripts/kconfiglib/kconfiglib.py:2824-2878 | any other name is a variable, expanded with the parts of the call as its arguments unless recursion forbids it, else a function with its argument counts, else an environment variable, else empty |
| MacroLaws.CallOfVariable | software/TuyaOS/scripts/kconfiglib/kconfiglib.py:2845-2848 | calling a variable whose value is text without macros around one $(k) gives that text around part k of the call |
| MacroLaws.ExpandCall | software/TuyaOS/scripts/kconfiglib/kconfiglib.py:2680-2692 | the same through the in-place expander |
| CliHistory.RememberKeepsNoRepeats | software/TuyaOS/apps/tuyaos_demo_examples/src/tuya_cli.c:341-369 | the remembered lines never contain the same line twice in a row |
| CliHistory.RingRemember | software/TuyaOS/apps/tuyaos_demo_examples/src/tuya_cli.c:357-366 | storing into the next slot of the ring is prepending to the list of lines and cutting it to 8 |
| CliHistory.History.Prev | software/TuyaOS/apps/tuyaos_demo_examples/src/tuya_cli.c:304-321 | returns the next older line, if there is one, and moves the cursor by one; slot accesses are in bounds |
| CliHistory.History.Next | software/TuyaOS/apps/tuyaos_demo_examples/src/tuya_cli.c:323-339 | returns the next newer line, if there is one, and stops at the newest |
| CliHistory.History.Save | software/TuyaOS/apps/tuyaos_demo_examples/src/tuya_cli.c:341-369 | the ring afterwards holds the lines as the bounded list without repetitions does, with the cursor reset |
| CliHistory.UpThenDown | software/TuyaOS/apps/tuyaos_demo_examples/src/tuya_cli.c:304-339 | k presses of Up show the k newest lines, newest first; k presses of Down show them again in the opposite order, and the last one finds nothing newer |
| Terminal.FeedText | software/TuyaOS/apps/tuyaos_demo_examples/src/tuya_cli.c:110-117 | printing text on a one-line terminal puts its characters from the cursor on and leaves everything else |
| CliEditor.InsertScreen | software/TuyaOS/apps/tuyaos_demo_examples/src/tuya_cli.c:701-732 | printing the rest of the line and stepping back leaves the line with the new character on the screen and the cursor behind it |
| CliEditor.BackspaceScreen | software/TuyaOS/apps/tuyaos_demo_examples/src/tuya_cli.c:539-563 | the bytes of a backspace leave exactly prompt and shortened line, then blanks, and the cursor at the insertion point |
| CliEditor.RecallScreen | software/TuyaOS/apps/tuyaos_demo_examples/src/tuya_cli.c:565-611 | blanking the line and printing another one leaves exactly prompt and new line |
| CliEditor.TabWithSeveralMatches | software/TuyaOS/apps/tuyaos_demo_examples/src/tuya_cli.c:266-293 | a Tab with several matches leaves screen and insertion point in agreement if and only if the insertion point is at the end of the line |
| CliEditor.BackspaceInBounds | software/TuyaOS/apps/tuyaos_demo_examples/src/tuya_cli.c:545-548 | Backspace keeps insert within index, and index within the buffer, if and only if it is not pressed at the start of a non-empty line |
| CliEditor.Cli.InsertChar | software/TuyaOS/apps/tuyaos_demo_examples/src/tuya_cli.c:701-732 | inserts the character at the insertion point of the line, and screen and line agree afterwards |
| CliEditor.Cli.BackspaceKey | software/TuyaOS/apps/tuyaos_demo_examples/src/tuya_cli.c:539-563 | removes the character before the insertion point, and screen and line agree afterwards |
| CliEditor.Cli.UpKey | software/TuyaOS/apps/tuyaos_demo_examples/src/tuya_cli.c:565-587 | replaces the line by the next older one, on the screen as well |
| CliEditor.Cli.DownKey | software/TuyaOS/apps/tuyaos_demo_examples/src/tuya_cli.c:589-611 | replaces the line by the next newer one, on the screen as well |
| CliEditor.Cli.LeftKey | software/TuyaOS/apps/tuyaos_demo_examples/src/tuya_cli.c:613-621 | moves insertion point and cursor left together |
| CliEditor.Cli.RightKey | software/TuyaOS/apps/tuyaos_demo_examples/src/tuya_cli.c:623-632 | moves insertion point and cursor right together |
| CliEditor.Cli.EnterKey | software/TuyaOS/apps/tuyaos_demo_examples/src/tuya_cli.c:518-537 | remembers the line and starts a new one under a fresh prompt |
| CliEditor.Cli.Run | software/TuyaOS/apps/tuyaos_demo_examples/src/tuya_cli.c:634-733 | over every run of keys (without the two cases above) the line, the insertion point and the history are what the keys make them, the buffer indices stay in bounds, and the screen shows exactly prompt, line and cursor |
| CliLaws.TypingInserts | software/TuyaOS/apps/tuyaos_demo_examples/src/tuya_cli.c:701-732 | typing a text that fits inserts it at the insertion point, which ends up behind it |
| CliLaws.OthersIgnored | software/TuyaOS/apps/tuyaos_demo_examples/src/tuya_cli.c:707-712 | unprintable characters, and any on a full line, change nothing |
| CliLaws.TypeThenErase | software/TuyaOS/apps/tuyaos_demo_examples/src/tuya_cli.c:539-563 | typing a text and pressing Backspace as often changes nothing |
| CliLaws.LeftThenType | software/TuyaOS/apps/tuyaos_demo_examples/src/tuya_cli.c:613-621 | text typed after pressing Left n times at the end of a line comes to stand n characters before its end |
| CliLaws.LeftThenRight | software/TuyaOS/apps/tuyaos_demo_examples/src/tuya_cli.c:613-632 | n times Left and n times Right change nothing, short of the start of the line |
| CliLaws.EnterThenUp | software/TuyaOS/apps/tuyaos_demo_examples/src/tuya_cli.c:518-587 | entering any non-empty line and pressing Up shows it again, insertion point at its end |
| CliLaws.HistoryShows | software/TuyaOS/apps/tuyaos_demo_examples/src/tuya_cli.c:341-369 | after entering lines of which none repeats the one before, pressing Up n times shows the n-th last of them, for n up to 8 |
| CliLaws.UpsThenDowns | software/TuyaOS/apps/tuyaos_demo_examples/src/tuya_cli.c:565-611 | Down m times after Up n times shows the line m newer, and not beyond the newest |
| UartReceive.InvRun | software/TuyaOS/apps/tuyaos_demo_examples/src/tuya_uart.c:117-156 | the invariants hold after every interleaving of interrupt and reader steps |
| UartReceive.Safety | software/TuyaOS/apps/tuyaos_demo_examples/src/tuya_uart.c:290-341 | in every reachable state the delivered bytes are a prefix of the accepted ones, the block semaphore is at most 1, one reader at most holds the ring lock, and a reader blocked without a count has its wake-up pending as a raised flag or a post about to happen |
| UartReceive.DropsOnlyWhenFull | software/TuyaOS/apps/tuyaos_demo_examples/src/tuya_uart.c:132-144 | a byte is lost if and only if it is stored into a full ring, and then it is not accepted |
| UartReceive.ReadDelivers | software/TuyaOS/apps/tuyaos_demo_examples/src/tuya_uart.c:308-321 | a first read, and one in the blocking loop that finds something, delivers the first min(len, bytes in the ring) bytes of the ring; in the loop it goes to wait if and only if that is none |
| UartReceive.ReadReturns | software/TuyaOS/apps/tuyaos_demo_examples/src/tuya_uart.c:290-341 | over every run in which a reader keeps the lock: it gets its bytes all at once, no more than it asked for, and something unless it asked for nothing or does not block and found the ring empty; nobody else gets bytes meanwhile |
| UartReceive.IsrRunEffect | software/TuyaOS/apps/tuyaos_demo_examples/src/tuya_uart.c:124-153 | what an undisturbed interrupt does to flag and semaphore |
| UartReceive.InterruptWakes | software/TuyaOS/apps/tuyaos_demo_examples/src/tuya_uart.c:117-156 | an undisturbed interrupt lets a blocked reader go on if and only if the hardware has a byte and the ring has room |
| UartReceive.WakeUpCanBeLost | software/TuyaOS/apps/tuyaos_demo_examples/src/tuya_uart.c:316-321 | a run in which a byte arrives between the read that finds the ring empty and the raising of the flag, and the reader stays blocked with the byte in the ring |
| UartReceive.WillPostWakes | software/TuyaOS/apps/tuyaos_demo_examples/src/tuya_uart.c:117-156 | the running interrupt handler, left undisturbed from wherever it is, lets a blocked reader go on if and only if it has stored a byte, has a byte and room for it, or is already past its test |
| UartReceive.LostExactly | software/TuyaOS/apps/tuyaos_demo_examples/src/tuya_uart.c:316-321 | from a state in which every reader blocked beside a non-empty ring is about to be woken, a step leads to such a state if and only if it is not a reader raising the flag while the ring is non-empty and no running interrupt will post |
| UartReceive.ServedUnlessLost | software/TuyaOS/apps/tuyaos_demo_examples/src/tuya_uart.c:290-341 | over whole runs: every reader blocked beside a non-empty ring is always about to be woken if and only if no step of the run raises the flag too late |

## Left out

- DepLoop.Checker.CheckAll: where an earlier symbol leads to a choice, the symbol from which the choice is looked at depends on the order in which dependents are visited, which in Python is that of a set; so whether a loop through two symbols of that choice is seen is not predicted from the graph.
- EvaluationOrder.RankableIff: about ranks, not about evaluation: evaluation that skips operands and types it does not need can end without ranks, as in A with 'default y if n && B' and B with 'default y if A', or MODULES with 'default y if T' and T tristate with 'default y' and no prompt.
- EvaluationOrder.CheckConfig: choice modes must be used only where a symbol of the choice is used as well, or by the symbols of the choice, as propagation makes it in implicit submenus; loop detection itself does not follow what depends on a choice mode.
- SaveLoad.SaveThenLoad: strings have no line breaks, key values are names, and int and hex texts have no trailing whitespace.
- SaveLoad.MinConfigThenLoad: the same preconditions.
- SaveLoad.ConfigDecodes: for any sequence of symbols, headings and ends of menus; MenuWalk says which sequence the menu gives. Walking and writing are two passes, where the program interleaves them.
- SyncDeps.TouchedIffChanged: configurations without key symbols, for which kconfiglib.py:1893-1896 raises an exception; values without line breaks.
- SyncDeps.LoadOldVals: symbols that are mentioned but never defined count as unknown names.
- OldConfig.Run: the input is a finite list of lines, and running out of it ends the program; what gets printed is not modelled.
- ExprText.PrintThenParse: on tokens, not characters, with transform_m False; what a choice prints as is one token that no operand can be; the constants n, m and y are tokens like symbols.
- Macros.Preprocessor.ExpandWhole: built-in functions, $(shell) and user functions are arbitrary functions of their arguments that may fail; names and quoted strings (_expand_name, _expand_str) are not modelled.
- FinalizedConfig.FinalizedChoiceSymOk: that the types of choices and choice symbols are bool or tristate is what the sanity check looks for, and a precondition here.
- Finalization.Finalizer.FinalizeNode: the conditions of a menu node are one record field, and the two halves of long loops are methods of their own.
- KconfigObject.Kconfig.RecInvalidate: the cached fields of all symbols and choices are one map from (item, field) to value instead of fields of many objects; iteration over a dependents set is in any order.
- KconfigObject.Kconfig.constructor: _build_dep() and _add_choice_deps() are one comprehension; their loops are not modelled.
- KconfigObject.Kconfig.SetValue: warnings, and the evaluation that only serves to word them, are not modelled.
- CliEditor.Cli.Run: Backspace at the start of a non-empty line and Tab with several matches inside the line are excluded; command lookup and what commands print are arbitrary, as long as a command name fits the buffer and output ends on a fresh line.
- UartReceive.InterruptWakes: for an interrupt that runs undisturbed; waiting for a semaphore never fails, and the ring is a bounded FIFO that rejects writes when full.
- Python's int(), str() and hex() are parameters of a configuration (Numerals).
- Reading and writing files, globbing, environment lookup, and the text of warnings.
- Tokenizing and help texts; parsing Kconfig files into the menu tree.
- The configuration prefix is fixed to CONFIG_.
- Detecting keys from raw bytes in the command line, and asynchronous writing in the UART.
- menuconfig.py and guiconfig.py.
