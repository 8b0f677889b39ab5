# twin.macro class resolution in Dafny

This project models the engine of twin.macro (`macro.js`). The engine turns a
Tailwind class list such as `tw\`md:flex -mt-2 hover:text-red-500!\`` into one
CSS-in-JS style object. It works in these steps:

- A list that is `null`, `undefined` or the string `"null"` is refused.
- The pipe dividers (" | ") are removed and the list is split into classes.
- The classes that name a screen (`md:…`) are moved after the others, in the
  order of `theme.screens`. A stable sort does this.
- Each class is split into its variant prefixes, a leading `-` and a trailing
  `!`. The variants are checked against the theme's screens and the built-in
  variants.
- The class is then sent to a handler:
  - a user plugin's component or utility, which takes precedence;
  - the static table;
  - the dynamic table, which reads the theme through `getConfigValue`, at most
    two levels deep;
  - or one of the seven core plugins.
- The style gets the important mark and is nested under its variants' path.
  Then it is deep-merged into the result.
- The first error ends the whole list. A "class not found" error carries
  suggestions: a curated alias, close theme keys, or close classes of the
  vocabulary.

Values are modelled as a JSON-like datatype (`Json.Value`). An object is the
sequence of its entries in JavaScript's enumeration order.

The parts where the source updates state step by step are imperative Dafny,
each proved equal to a specification function:

- the screen sort on an array (`Sorting.SortInPlace`);
- the `matchChildKey` loop;
- the `splitVariants` loop;
- the in-place filling of the user-plugin utility table;
- the `reduce` of `getStyles`.

Everything else is functions and lemmas.

Where the code and its documentation disagree, the model follows the code:

- The stripping of `-` and `!` is not idempotent. It takes one of each
  (`Pieces.StrippingTakesOneMarkEach`).
- With user plugins configured, a plugin's style is tried before the static
  and dynamic handlers, and wins over them (`Engine.UserPluginWins`).
- These quirks are also kept as written:
  - `mergeImportant` lets a nested selector replace what came before it;
  - the bare `space-x` reads the theme key `"space-x"`;
  - `getConfigValue` with no matcher reads the key `"null"`;
  - `addVariants` reads an undefined variable, so the value already at the path
    never enters the copy.

## Model

| member | source | states |
|---|---|---|
| Engine.GetStyles | macro.js:3273-3357 | The method (pipe removal, screen ordering in an array, then the fold) returns exactly `GetStylesSpec`. |
| Engine.GetStylesSpec | macro.js:3273-3277 | `null`, `undefined` and `"null"` are refused with NotPlainString. A missing `theme.screens` fails with MissingThemeKey. Any result has distinct keys. |
| Engine.ListStyle | macro.js:3275-3355 | A plain list fails on a missing `screens`. Its style has distinct keys. |
| Engine.ListIsFold | macro.js:3277-3355 | A plain list's style is the merge, from `{}`, of the fragments of its screen-ordered classes. |
| Engine.MergeClasses | macro.js:3281-3355 | The loop over the classes returns the fold `MergeFragments([], Fragments(...))`. |
| Engine.MergeFragments | macro.js:3281-3355 | The fold keeps the result's keys distinct. |
| Engine.Fragments | macro.js:3281-3355 | There is one fragment per class, in order, each the class's `ClassFragment`. |
| Engine.FirstRefusalEndsAll | macro.js:3281-3355 | The first failing fragment's error is the list's error, whatever follows it. |
| Engine.OneRefusalEndsAll | macro.js:3281-3355 | A list with any failing fragment fails. |
| Engine.RefusedClassRefusesList | macro.js:3275-3355 | A list containing a class whose fragment fails is refused, wherever the ordering puts that class. |
| Engine.GroupRefusesList | macro.js:3282-3284 | Any list containing `group` is refused. Also macro.js:2501-2505. |
| Engine.BlankListIsEmptyStyle | macro.js:3275-3356 | A list of white space only resolves to `{}`. |
| Engine.OrderingKeepsClass | macro.js:2332-2344 | Every class of the list occurs in the ordered list. |
| Engine.ResolveClass | macro.js:3282-3352 | One step of the `reduce` returns exactly `ClassFragment`. |
| Engine.ClassFragment | macro.js:3282-3290 | `group` is refused first, then a `getPieces` error. A success carries the class's pieces, with a non-empty class name. Also macro.js:2501-2505. |
| Engine.ResolvePieces | macro.js:3291-3347 | The method returns exactly `PieceStyle`. |
| Engine.PieceStyle | macro.js:3291-3347 | An empty class gives EmptyClass. An unmatched class without plugins gives the "not found" error with suggestions. |
| Engine.UserPluginWins | macro.js:3332-3347 | A user plugin's style is the class's style (with the important transform), whatever the tables say. |
| Engine.StaticClassStyle | macro.js:3300-3347 | Without plugins, a static class gets its table output with the important mark when asked. Also macro.js:2617-2629. |
| Engine.HandlerStyle | macro.js:3304-3327 | A static class gets `handleStatic`. A core-plugin failure is the plugin's failure. Only a matched class gets a style. Also macro.js:3343-3347. |
| Engine.Combine | macro.js:3348-3352 | Merging a fragment keeps the keys distinct. |
| Engine.CombineWithoutVariants | macro.js:3348-3352 | Without variants, each key holds the old value merged with the fragment's. |
| Engine.CombineWithVariants | macro.js:3348-3352 | With variants, the variant path holds the old value there merged with the fragment. Also macro.js:2418-2428. |
| Engine.OrderedClasses | macro.js:2331-2345 | It fails exactly when `screens` is missing. Otherwise it is the screen order of the pipe-free list's words. Also macro.js:3275. |
| Engine.OrderByScreens | macro.js:2331-2345 | The array sort returns exactly `OrderedClasses`. |
| Engine.ScreenOrderSortsAndPermutes | macro.js:2335-2344 | The screen order is a permutation of the classes, sorted by screen rank. |
| Engine.SameScreenKeepsOrder | macro.js:2335-2344 | Classes of the same rank keep their written order. |
| Engine.ScreenlessFirst | macro.js:2335-2339 | A class naming no screen comes before every class naming one. |
| Engine.RankedScreenlessFirst | macro.js:2335-2339 | In any rank-sorted list, screenless classes precede screen classes. |
| Engine.ScreenKey | macro.js:2336-2337 | The screen is the longest colon-free prefix, ending at the first `:` or at the end. |
| Engine.Position | macro.js:2338 | `indexOf` gives -1 exactly for an absent element, otherwise the first position holding it. |
| Engine.Screens | macro.js:2333 | `Object.keys(theme.screens)` fails exactly when `screens` is missing. |
| Engine.SpacesHaveNoWords | macro.js:2332 | Blank text has no classes. |
| Engine.SpacesKeptByStripPipes | macro.js:3275 | Pipe removal leaves blank text unchanged. |
| Sorting.SortInPlace | macro.js:2343 | The in-place sort of the array yields `SortBy` of the old contents. |
| Sorting.InsertInPlace | macro.js:2343 | One insertion step places `a[i]` after every earlier element whose key is no greater, and leaves the rest unchanged. |
| Sorting.SortBySortsAndPermutes | macro.js:2343 | The stable sort is sorted by key and a permutation of its input. Also macro.js:1876. |
| Sorting.SortByIsStable | macro.js:2343 | The elements with a given key come out in input order. Also macro.js:1876. |
| Sorting.SortByKeepsSorted | macro.js:2343 | An already sorted input is unchanged. Also macro.js:1876. |
| Sorting.InsertLastSorted | macro.js:2343 | Insertion keeps a sorted sequence sorted. |
| Sorting.InsertLastKeepsElements | macro.js:2343 | Insertion adds exactly the one element. |
| Sorting.Take | macro.js:1880 | `slice(0, n)` is the prefix of length `min(n, length)`. Also macro.js:1923. |
| Sorting.TakeKeepsSmallest | macro.js:1923 | The first `n` of a sorted sequence have keys no greater than any element left out. |
| Pieces.SplitVariants | macro.js:2387-2402 | The loop returns exactly `SplitVariantNames`. |
| Pieces.SplitVariantNames | macro.js:2395-2402 | What remains starts with no variant prefix. |
| Pieces.SplitVariantNamesShape | macro.js:2396 | Every name split off is a non-empty run of `[_a-z-]`. |
| Pieces.SplitVariantNamesRebuilds | macro.js:2395-2402 | The names with their colons, plus the remainder, give back the raw class. |
| Pieces.VariantPrefix | macro.js:2396 | A match ends at a `:` inside the string. |
| Pieces.SplitNegative | macro.js:2476-2491 | The sign plus the rest is the input. |
| Pieces.SplitImportant | macro.js:2455-2471 | The rest plus the `!` is the input. |
| Pieces.GetPieces | macro.js:2494-2499 | It succeeds exactly when every variant name is a screen or a built-in variant. Also macro.js:2404-2408. |
| Pieces.Assemble | macro.js:2409-2414 | The negative, the class and the mark rebuild the variant-free class. The flags agree with the texts. Also macro.js:2476-2491, macro.js:2455-2471. |
| Pieces.GetPiecesRebuilds | macro.js:2494-2499 | The prefixes, the negative, the class and the `!` rebuild the raw class. |
| Pieces.StrippingTakesOneMarkEach | macro.js:2455-2491 | `--x!!` leaves the class `-x!`: one sign and one mark come off. |
| Variants.ValidateVariants | macro.js:2351-2381 | It succeeds exactly when all names are known. The rendered variants are non-empty and no more than the names. |
| Variants.RenderVariants | macro.js:2355-2380 | It succeeds exactly when all names are known. Otherwise the error names the first unknown variant with the menu. |
| Variants.RenderVariant | macro.js:2355-2379 | A screen renders through `stringifyScreen`. Failure comes exactly for unknown names, with the variant menu. |
| Variants.StringifyScreen | macro.js:2312-2329 | A string screen is a min-width query. Any result is empty or an `@media` rule. |
| Variants.SassyIdempotent | macro.js:2368-2370 | The `sassyPseudo` rewrite is idempotent. |
| Variants.SassyWithoutColon | macro.js:2369 | Text without `:` is unchanged. |
| Variants.SassyAppend | macro.js:2369 | A colon-free first part not ending in a space passes through. |
| Variants.BuiltInsRenderNonEmpty | macro.js:1647-1705 | Each built-in variant renders to a non-empty selector. Also macro.js:2365-2372. |
| Variants.VariantSelectorsNonEmpty | macro.js:1647-1705 | The built-in table has no empty selector. |
| Classify.GetPropertiesIn | macro.js:1731-1749 | An empty class has no properties. The kind is static exactly for static classes. A class with no dynamic key is static or unmatched. |
| Classify.KindOf | macro.js:1740 | The handler order is static, then dynamic, then core plugin, each as an if-and-only-if. |
| Classify.DynamicKeyIsLongestMatch | macro.js:1714-1727 | The dynamic key is the first of the longest matching keys, and `""` exactly when none (non-empty) matches. |
| Classify.LongestMatchFrom | macro.js:1718 | The `reduce` keeps the accumulator or ends on the first strictly longer longest match. |
| ClassifyExamples.LongerKeyWins | macro.js:1716-1718 | `border-t-2` takes the key `border-t` over `border`. |
| ClassifyExamples.StaticWinsOverDynamic | macro.js:1740 | A class in both tables is static. |
| Handlers.HandleStatic | macro.js:2617-2629 | The static style is present exactly when the table has an object output, and is that output. |
| Handlers.StaticStyleIsTableOutput | macro.js:2627-2628 | A class whose every entry has a given output gets that output. |
| Handlers.HandleDynamic | macro.js:2713-2744 | A dynamic style has distinct keys. |
| Handlers.DynamicStyleOfFirstFound | macro.js:2730-2743 | With every descriptor resolving and the first one with a value at `i`, each property of descriptor `i` holds the negative plus the value, and nothing else is set. |
| Handlers.DynamicStyleOnlyIfFound | macro.js:2730-2744 | Conversely, a dynamic style means every descriptor resolved, one had a value, and the class has no trailing `-`. |
| Handlers.LookupErrorFailsClass | macro.js:2731-2736 | The first descriptor whose lookup fails fails the class with that error. |
| Handlers.NoValueNotFound | macro.js:2736-2742 | With no descriptor giving a value, the class is "not found", its suggestions searching each descriptor's `config`. |
| Handlers.TrailingDashNotFound | macro.js:2737 | A class ending in `-` is never styled dynamically. |
| Handlers.ResolveAll | macro.js:2731-2736 | Every descriptor is resolved in order. Success means all resolve. A failure is the first failing one's error. |
| Handlers.FirstFound | macro.js:2736 | `.filter(item => item.value)[0]` is the first truthy value, absent exactly when none is truthy. |
| Handlers.ValueKey | macro.js:2722 | The theme key is the negative plus the class past the dynamic key and its `-`. |
| Handlers.NegativeValueSignedOnce | macro.js:2704 | A negative class signs a value once: an already negative value keeps its one sign, any other gets `-`. A positive class writes the value as it is. Also macro.js:34. |
| Handlers.Styleify | macro.js:2698-2711 | Exactly the descriptor's properties are set, each to the negative plus the rendered value. |
| Handlers.PutAll | macro.js:2705-2709 | The listed names are set to the value and the other keys are unchanged. |
| Handlers.WithAlpha | macro.js:1751-1788 | An unadjustable colour is written as it is. An adjustable one becomes `rgba(r, g, b, var(variable))` from the parsed channels, with the variable set to 1 before the property. |
| Handlers.HexWithAlphaKept | macro.js:1751-1753 | A nine-character hex colour keeps its own alpha. |
| Handlers.ArrayColourKept | macro.js:1764-1788 | An array colour is written as it is. |
| Config.GetConfigValue | macro.js:2674-2696 | A falsy domain gives nothing. Errors are only "nested too deep" or "unsupported value". |
| Config.GetConfigValueWithinTwoLevels | macro.js:2670-2696 | A resolved value renders a child or grandchild of the domain. A "too deep" error names a grandchild. |
| Config.DefaultForEmptyMatcher | macro.js:2675-2677 | First step: an empty matcher reads the domain's non-empty `default`. |
| Config.OwnEntrySecond | macro.js:2679-2683 | Second step: otherwise a string, number or array at the matcher's own entry is the value. |
| Config.EntryDefaultThird | macro.js:2685-2689 | Third step: otherwise an object at that entry gives its truthy `default`. |
| Config.ChildSearchLast | macro.js:2691-2692 | Last step: otherwise the child search decides, its error failing the lookup and an empty match giving no value. |
| Config.MatchChildKey | macro.js:2643-2667 | The loop with its early exits returns exactly `FirstChildMatch`. |
| Config.FirstChildMatch | macro.js:2643-2667 | The only error is "nested too deep". |
| Config.ScanChildren | macro.js:2646-2666 | The only error is "nested too deep". |
| Config.ScanFindsFirstQualifyingChild | macro.js:2662-2666 | The first qualifying entry decides the result. |
| Config.ScanWithoutQualifyingChild | macro.js:2662-2666 | With no qualifying entry the search gives `undefined`. |
| Config.ScanChildrenSource | macro.js:2646-2666 | What the search returns or fails on is a grandchild. |
| Config.NestedColourResolves | macro.js:2643-2696 | Example: `red-500` reaches `red.500`. A string there is the result, and an object there is one level too deep. |
| Config.NormalizeValue | macro.js:2631-2641 | Strings, numbers and arrays are returned (a number as text). Anything else fails. |
| Config.StripNegativeSign | macro.js:34 | A sign in front of any non-empty text is removed, and only that one sign. |
| Config.ZeroDigitsGetPx | macro.js:26 | A zero written with zero digits only gets `px`. |
| Config.UnitValueKept | macro.js:26 | A value ending in a letter, such as a length with its unit, is kept as it is. |
| Modifiers.ApplyTransforms | macro.js:2515-2529 | No style stays none. A core plugin's style is untouched. Otherwise `mergeImportant` is applied. |
| Modifiers.MergeImportant | macro.js:2435-2449 | Without the mark the style is unchanged. |
| Modifiers.ImportantMarksFlatStyle | macro.js:2437-2448 | A flat style gets every value marked, with keys and order kept. |
| Modifiers.ImportantLastObjectWins | macro.js:2443-2445 | When the last entry is an object, the result is that object's own important version. |
| Modifiers.ImportantDropsSelector | macro.js:2443-2445 | One selector around flat declarations: the declarations are marked and the selector disappears. |
| Modifiers.AddVariants | macro.js:2418-2428 | The copy keeps the keys distinct. |
| Modifiers.VariantStyleLandsAtPath | macro.js:2425-2427 | Merging the copy leaves, at the variant path, the old value merged with the style. Also macro.js:3348. |
| Modifiers.AssignCopies | macro.js:2425 | `Object.assign({}, style)` copies a style with distinct keys exactly. |
| Merge.DeepMergeGet | macro.js:3348 | After `merge`, each key holds the target's value merged with the source's. |
| Merge.DeepMergeIntoEmpty | macro.js:3348 | Merging into `{}` gives the fragment itself. |
| Merge.MergeFrom | macro.js:3348 | The merge keeps keys distinct. |
| Merge.SetPath | macro.js:2425 | `cleanSet` keeps keys distinct. |
| Merge.SetPathGet | macro.js:2425 | Reading the path back gives the value set. |
| Merge.SetPathSiblings | macro.js:2425 | Keys other than the path's first step are untouched. |
| Merge.MergeWithSetPath | macro.js:2425-2427 | Merging with the path-updated copy leaves the old value merged with the new one at the path. Also macro.js:3348. |
| Json.Get | macro.js:2655 | A lookup finds a key exactly when the object has it, with a value paired with it. |
| Json.GetSnoc | macro.js:2655 | A lookup searches the earlier entries before one added at the end. |
| Json.GetMember | macro.js:2655 | With distinct keys, the lookup finds the value paired with its key. |
| Json.Put | macro.js:2609 | Assignment sets the key and keeps every other key. An existing key keeps its place, and a new key goes last. Also macro.js:2447. |
| Json.Assign | macro.js:2705-2709 | `Object.assign` keeps keys distinct. |
| Json.AssignGet | macro.js:2705-2709 | A key the source has holds the source's value, and any other keeps the target's. |
| Json.AssignGetOther | macro.js:2870-2873 | A key the source lacks keeps the target's value. |
| CorePlugins.CallPlugin | macro.js:3238-3246 | "No handler" comes exactly for a name that is not a core plugin. Otherwise errors are a plugin's own. |
| CorePlugins.CorePluginStyle | macro.js:3191-3199 | A core plugin fails only with a plugin error. |
| CorePlugins.FirstIn | macro.js:2750 | A found value is truthy. Errors come from `getConfigValue`. Also macro.js:2763. |
| CorePlugins.FirstInFindsFirst | macro.js:2763 | A value found comes from the first domain that gives one, with every domain before giving nothing. |
| CorePlugins.NotFound | macro.js:3211-3216 | "Not found" names the class without variants, or a missing searched domain is the theme error naming that domain. |
| CorePlugins.Placeholder | macro.js:2770-2794 | Failures are plugin errors. |
| CorePlugins.PlaceholderOpacityFirst | macro.js:2776-2782 | An opacity is tried first, `placeholderOpacity` before `opacity`, and sets only the opacity variable. |
| CorePlugins.PlaceholderColourSecond | macro.js:2783-2790 | Without an opacity, a `placeholderColor` colour goes through `withAlpha` on `color`. |
| CorePlugins.PlaceholderNotFound | macro.js:2776-2793 | With neither, "not found" searches the colours and the opacity domain the theme has. |
| CorePlugins.Container | macro.js:2825-2874 | Failures are plugin errors. |
| CorePlugins.ContainerRefusesFirst | macro.js:2836-2838 | Variants, then `!`, then negatives are refused before the theme is read. |
| CorePlugins.ContainerWidthAndCentre | macro.js:2866-2873 | The container is full width. A centred one has automatic side margins that nothing overrides. |
| CorePlugins.MediaScreens | macro.js:2845-2854 | One distinct `@media (min-width: …)` key per screen. |
| CorePlugins.SideStyles | macro.js:2855-2865 | Only `<kind>Left` and `<kind>Right` are set. |
| CorePlugins.Border | macro.js:2901-2924 | Failures are plugin errors. |
| CorePlugins.BorderWidthBeforeColour | macro.js:2876-2885 | A key found in `borderWidth` is a width, and the colour is not consulted. Also macro.js:2901-2924. |
| CorePlugins.Divide | macro.js:2984-3026 | Failures are plugin errors. |
| CorePlugins.DivideColourFirst | macro.js:2990-2998 | A colour is tried first and goes through `withAlpha` on `borderColor`. |
| CorePlugins.DivideOpacitySecond | macro.js:2999-3010 | Then an opacity: `divide-opacity-` and a key (the bare class reads `default`) in `divideOpacity`, then `opacity`; a key neither has is "not found" in the opacity domain the theme has. |
| CorePlugins.DivideWidthThird | macro.js:3012-3023 | Then a width: the key after `divide-x-` or `divide-y-` in `divideWidth` is split over the axis's two sides through the reverse variable, set to 0. |
| CorePlugins.DivideNotFound | macro.js:3025 | A class that is none of the three is "not found" over the class vocabulary. |
| CorePlugins.Space | macro.js:3028-3062 | Failures are plugin errors. |
| CorePlugins.SpaceSplitsOverAxis | macro.js:3038-3061 | `space-x-` or `space-y-` and a key reads the key in `space`; a truthy entry is split over the axis's margins through the reverse variable, anything else is "not found" in `space`. |
| CorePlugins.BareSpaceXReadsItsOwnName | macro.js:3038-3043 | As written, the bare `space-x` reads the key `space-x`, so a `space` domain with only a default gives "not found". |
| CorePlugins.TextPlugin | macro.js:3093-3121 | Negatives are refused. Failures are plugin errors. |
| CorePlugins.TextColourBeforeSize | macro.js:3104-3112 | A `textColor` colour comes first and goes through `withAlpha` on `color`. |
| CorePlugins.TextSizeSecond | macro.js:3113-3120 | Without a colour a `fontSize` entry sets the size; with neither the class is "not found" in both domains. |
| CorePlugins.FontSizeStyle | macro.js:3078-3091 | A string sets `fontSize` alone. An array sets `fontSize` to its first item and adds `lineHeight`, the second item, exactly when that item is truthy. |
| CorePlugins.Bg | macro.js:3159-3187 | Failures are plugin errors. |
| CorePlugins.BgColourFirst | macro.js:3165-3173 | A `backgroundColor` colour comes first and goes through `withAlpha`. |
| CorePlugins.BgSizeThenPosition | macro.js:3174-3186 | Without a colour a size, without a size a position; with none of the three, "not found" in all three domains. |
| UserPlugins.HandleUserPlugins | macro.js:2573-2615 | The method, with its in-place utility table, returns exactly `UserPluginStyle`. |
| UserPlugins.UserPluginStyle | macro.js:2577-2579 | No plugins gives no style. |
| UserPlugins.SelectorListRefused | macro.js:2586 | A component selector with a comma makes every class fail. Also macro.js:2533. |
| UserPlugins.UtilityClasses | macro.js:2594-2612 | The loop over the utilities returns exactly the fold `UtilityTable`. |
| UserPlugins.AddVariantsBlock | macro.js:2600-2611 | The loop over one block returns exactly `RulesTable`. |
| UserPlugins.SetRuleClass | macro.js:2607-2610 | Resetting and filling a class gives the table with that class set to the rule's declarations. |
| UserPlugins.RulesTableLastWins | macro.js:2600-2611 | A class holds the declarations of the last rule naming it. |
| UserPlugins.RulesTableKeepsOthers | macro.js:2600-2611 | A class no rule names keeps its earlier entry. |
| UserPlugins.UtilityFailStays | macro.js:2595-2612 | A refused selector in one block refuses the whole utility table. |
| UserPlugins.ParseSelector | macro.js:2531-2537 | A comma fails with MultipleSelectors, and only then. A name found is non-empty and space-free, and the trimmed selector starts with `.name`. |
| UserPlugins.ParseClassSelector | macro.js:2531-2537 | `.name` or `.name pseudo` parses to `name`. |
| UserPlugins.ClassOf | macro.js:2534 | The match is a non-empty, space-free run after the dot. |
| UserPlugins.CamelizeDashed | macro.js:2539 | `a-b` becomes `a` followed by `b` with its first letter upper-cased. |
| UserPlugins.CamelizeKeepsWords | macro.js:2539 | A name of word characters is kept. |
| UserPlugins.CamelizeRemovesSeparators | macro.js:2539 | A name ending in a word character loses every separator. |
| UserPlugins.DeclStyle | macro.js:2546-2551 | The declarations give a style with distinct keys. |
| UserPlugins.DeclStyleLastWins | macro.js:2546-2551 | A key holds the value of the last declaration of that property. |
| UserPlugins.ComponentRules | macro.js:2541-2554 | The component table has distinct keys. |
| UserPlugins.ComponentRulesFail | macro.js:2541-2554 | The components fail exactly when some selector has a comma. Also macro.js:2533. |
| UserPlugins.ComponentMatches | macro.js:2556-2560 | A component matches exactly when it is the class or the class followed by `:`. |
| UserPlugins.ComponentWithPseudo | macro.js:2562-2571 | The exact match's declarations, plus the pseudo-class match nested under its pseudo-class. |
| UserPlugins.RuleKey | macro.js:2544-2553 | A rule fails exactly when its selector has a comma. |
| Suggestions.ErrorSuggestions | macro.js:1978-1987 | Suggestions off gives "not found" with suggestions disabled. Otherwise a domain the theme lacks gives the theme error naming the first such domain (unless an alias answers first); anything else is "not found" for the variant-free class, with a non-empty pick when one is made. |
| Suggestions.GetSuggestions | macro.js:1882-1924 | The alias first; then config mode when domains are given, failing on the first domain the theme lacks; vocabulary mode otherwise. A success is never "disabled". |
| Suggestions.FirstMissing | macro.js:1870-1872 | The first domain the theme lacks, absent exactly when the theme has every domain. Also macro.js:1810-1813. |
| Suggestions.AliasComesFirst | macro.js:1891-1892 | A class with a curated alias is answered with it as "not found" with that pick, in any mode. |
| Suggestions.ConfigListIsRanked | macro.js:1859-1863 | The config list excludes `-array-` targets and holds ratings from 0.15 up to (not including) 0.6, highest first. Also macro.js:1866-1877, macro.js:1902-1907. |
| Suggestions.ConfigPickIsFirstStrong | macro.js:1905-1906 | The config pick is the first ranked candidate rated 0.6 or more. |
| Suggestions.ConfigFallbackIsUnrated | macro.js:1879-1880 | With no rated candidate, the fallback is at most 20 unrated candidates in domain order. Also macro.js:1903. |
| Suggestions.ConfigSuggestions | macro.js:1894-1907 | Config mode never gives "disabled". |
| Suggestions.VocabularyListIsTopSix | macro.js:1918-1923 | The vocabulary list is the six best matches (all of them when fewer), rated above 0.25 and below 0.6, highest first: a match left out is rated no higher than any kept. |
| Suggestions.VocabularyPickIsFirstStrong | macro.js:1921-1922 | The pick is the first target in vocabulary order rated 0.6 or more. |
| Suggestions.VocabularyEmptyWhenNothingClose | macro.js:1918-1920 | Nothing rated above 0.25 gives the empty list. |
| Suggestions.VocabularySuggestions | macro.js:1911-1923 | Vocabulary mode never gives "disabled". |
| Suggestions.RateVocabulary | macro.js:1918 | Exactly the targets rated above 0.25 are kept, each with its rating. |
| Suggestions.RateVocabularyAppend | macro.js:1918 | The ratings keep the vocabulary order. |
| Suggestions.BestSixKept | macro.js:1923 | The six kept after sorting by rating are rated at least as high as every match left out. |
| Suggestions.FirstRated | macro.js:1905 | `find` gives the first candidate at the bound, absent exactly when none reaches it. Also macro.js:1921. |
| Suggestions.FlattenGivesLeaves | macro.js:1810-1818 | Flattening leaves no object value, and each entry is a scalar of the theme found along the path its key spells, joined with `-`. |
| Suggestions.FlattenFromSound | macro.js:1813-1816 | Each entry the `reduce` adds is a scalar of the object under its dashed path key. |
| Suggestions.FlattenFromDistinct | macro.js:1813-1816 | Flattening gives distinct keys. |
| Suggestions.FilterKeys | macro.js:1836-1843 | Only keys of the requested sign are kept. |
| Suggestions.FilterKeysGet | macro.js:1836-1843 | A key is kept, with its value, exactly when its sign matches. |
| Suggestions.FlattenedDomainFiltered | macro.js:1851 | A flattened domain keeps exactly its keys of the wanted sign, with their values. |
| Suggestions.TargetOfDefault | macro.js:1820-1834 | `default` suggests the dynamic key itself. |
| Suggestions.TargetOfPlainKey | macro.js:1820-1834 | A plain key is appended to the dynamic key with `-`. |
| Suggestions.TargetOfNegativeKey | macro.js:1820-1834 | A negative key puts its sign before the dynamic key. |
| Suggestions.KeepFromDomain | macro.js:1863 | Exactly the candidates passing the filter are kept, all from the input. |
| Suggestions.KeepFromDomainAppend | macro.js:1863 | The filter keeps the order. |
| Suggestions.DomainCandidates | macro.js:1845-1864 | Candidates pass the filter and are rated exactly when input is given. |
| Suggestions.OverlayDomains | macro.js:1866-1876 | The overlay of all domains keeps those two facts. |
| Suggestions.Overlay | macro.js:1873-1875 | The result is as long as the longer list, each index holding the next list's item where it has one, else the accumulator's. |
| Suggestions.OverlayLastDomainWins | macro.js:1870-1876 | The overlay of the domains is as long as the longest domain list, each index holding the item of the last domain that has one there. |
| Suggestions.OverlayAllLastWins | macro.js:1870-1876 | The same for any lists overlaid first to last. |
| Suggestions.OverlayDomainsIsOverlayAll | macro.js:1870-1876 | The domains' overlay is the overlay of their candidate lists. |
| Strings.IndexOfIsFirst | macro.js:2336 | `indexOf` gives the first occurrence, or there is none. |
| Strings.Words | macro.js:2332 | `match(/\S+/g)` gives non-empty runs without white space. |
| Strings.WordsOfJoin | macro.js:2332 | The words of a single-space join are the joined words in order: each is a maximal run. |
| Strings.StripPipesNoPipe | macro.js:3275 | A list without `\|` is unchanged by pipe removal. |
| Strings.StripPipesDivider | macro.js:3275 | The first ` \| ` after a pipe-free part becomes one space. |
| Strings.StripPipesJoin | macro.js:3275 | Pipe-free parts joined with ` \| ` come out joined with single spaces. |
| Strings.TrimUnspaced | macro.js:24 | Text without white space at its ends trims to itself. |

## Left out

- The Babel side: parsing, the `tw` prop and function, imports, `astify` and
  the placement of the result in the AST. The result is the style object
  before `astify`.
- `processPlugins` and the PostCSS node API. The user plugins come in already
  processed, as component rules and `@variants` utility nodes with flat
  declaration lists. `walkDecls` reaching nested declarations is not modelled.
- The colour library and `string-similarity` are foreign. They are fields of
  `Context.Host` (a colour parser and a similarity score) and are not modelled
  further.
- `state.debug` logging and every message text and its colouring. An error is
  modelled by its kind and payload only.
- `lodash.merge` of two arrays, which merges index by index. The model
  replaces the array.
- A `TypeError` the source would throw on a missing theme key (a `screens`,
  `container` or `space` key that is absent, a suggestion domain the theme
  lacks, or reading a property of `undefined`) is modelled as the error
  `MissingThemeKey`.
- Suggestions.DomainCandidates: a suggestion domain whose theme value is a
  string is flattened character by character in JavaScript. The model gives
  it no entries. Its case for an absent domain is never reached, because
  `GetSuggestions` fails on such a domain first.
- An entry whose value would be `undefined` is omitted from a built style.
- `dlv` with a dotted string path: the model reads one key per step.
- JavaScript number formatting: theme numbers are integers, written in
  decimal.
- `camelize` upper-cases ASCII letters only.
- Engine.OrderByScreens: timsort with a comparator that never answers
  "equal" is modelled as a stable sort by screen rank. For fewer than 32
  classes timsort is a binary insertion sort, which gives that order. For
  longer lists the order among classes of one screen may differ.
- Engine.MergeFragments: the source computes no fragment after an error. The
  model computes them all, but no fragment depends on another, so the outcome
  is the same.
- UserPlugins.SetRuleClass: the utility table is a local value, not shared
  across classes.
- A lookup of a key inherited from `Object.prototype` (such as
  `constructor`) is not modelled.
- JavaScript's ordering of integer-like keys first, in an object literal, is
  not modelled. Entries keep their written order.
- `Object.keys` of a `screens` value that is a string enumerates its indices.
  The model gives such a value no screens.
