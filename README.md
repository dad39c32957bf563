# colour: a verified model of SGR attribute composition and formatting

This project models the core of the Go package `colour` (file `color.go`) in Dafny. The package styles terminal text with ANSI Select Graphic Rendition sequences.

- A **colour** (`Colours.Colour`) is an ordered, mutable list of SGR attributes. It also carries a three-state local override: none, disabled or enabled.
- The **formatter** renders the attribute list as ESC `[`, the attributes in decimal joined by `;`, then `m`. This is the SGR control function of ECMA-48 (section 8.3.117), written with the control-sequence syntax of ECMA-48 section 5.4. Text is wrapped between that prefix and the reset sequence ESC `[0m`.
- The **output gate** (`IsNoColourSet`) lets the local override decide when one is set, and otherwise the global `NoColour` flag. The global flag is an explicit parameter, `globalNoColour`, of every member that reads it. So it is read afresh on each call.
- The **cache** (`Cached.Cache`) hands out one shared single-attribute colour per attribute. It creates the colour on first use.
- The **print family** writes to a writer modelled as an append-only log of chunks (`Writers.Writer`). It writes the prefix, the payload and the reset in a fixed order.
- The **helpers** `colourPrint` and `colourString` sit behind every per-colour function. `colourPrint` adds a trailing newline; `colourString` does not.

The wire format has an inverse, `Sgr.ParseSgr`, proved to read back every rendered sequence. So `format()` loses nothing: different attribute lists never render alike, and a single attribute or the empty list produces no `;`.

Modules: `Options` (optional value), `Attributes` (the registry), `Sgr` (wire format and its parser), `Writers` (the log writer), `Colours` (the colour object, gate, wrap, equality, emission), `Cached` (cache and helpers).

Two behaviours of the code are kept as written, although a reader may not expect them:
- `Equals` only checks that each attribute of the receiver occurs in the argument, and that the lengths agree. It does not check the other direction.
- `unsetWriter` consults the global flag again instead of reusing the resolution made for the prefix. See Findings.

## Model

| member | source | states |
|---|---|---|
| Attributes.RegistryLayout | color.go:47-107 | Reset is 0; base attributes are 0..9, foreground 30..37, high-intensity foreground 90..97, background 40..47, high-intensity background 100..107, each a run of consecutive codes |
| Attributes.GroupRanges | color.go:47-107 | every member of each group lies in its own range: 0..9, 30..37, 40..47, 90..97, 100..107 |
| Attributes.GroupsDisjoint | color.go:47-107 | no code belongs to two groups |
| Sgr.NaturalDigits | color.go:352 | the decimal rendering of a natural number is non-empty, all digits, and has no leading zero |
| Sgr.Itoa | color.go:352 | strconv.Itoa yields an optional '-' then digits, with '-' exactly for negative values |
| Sgr.ParseItoa | color.go:352 | reading the rendered decimal back gives the same integer, negatives included |
| Sgr.Parameters | color.go:347-356 | sequence(): the parameter string is empty exactly when there are no parameters, and it starts with the first parameter's decimal; ParametersRoundTrip and SeparatorCount give the rest |
| Sgr.Render | color.go:368-370 | format(): ESC '[', then the parameter string, then 'm'; RenderRoundTrip proves it reads back as the list |
| Sgr.ParametersRoundTrip | color.go:347-356 | the ';'-joined parameter string reads back as exactly the parameter list, the empty list included |
| Sgr.SeparatorCount | color.go:347-356 | the parameter string holds one ';' fewer than there are parameters: none for zero or one parameter |
| Sgr.RenderRoundTrip | color.go:368-370 | the SGR sequence ESC '[' params 'm' reads back as exactly the parameter list |
| Sgr.RenderInjective | color.go:368-370 | two parameter lists render to the same sequence only if they are equal |
| Sgr.RenderHasNoVerb | color.go:152-159 | the rendered sequence holds no '%', so passing it to Fprintf as the format writes it verbatim |
| Sgr.ResetIsRenderOfReset | color.go:372-374 | the reset sequence ESC '[0m' is the SGR sequence of the single attribute Reset |
| Sgr.RenderExamples | color.go:347-370 | [] gives ESC '[m', [FgRed] gives ESC '[31m', [Bold, FgGreen] gives ESC '[1;32m', [-1] gives ESC '[-1m' |
| Colours.AttrExists | color.go:414-422 | the search returns true exactly when the attribute occurs in the list |
| Colours.AllExist | color.go:405-411 | the loop of Equals succeeds exactly when every attribute of the first list occurs in the second |
| Colours.Colour.constructor | color.go:109-114 | New holds exactly the given attributes, in order, with no local override |
| Colours.Colour.Add | color.go:173-178 | the attributes are appended in order, duplicates kept, the override unchanged, and the receiver returned |
| Colours.Colour.Prepend | color.go:180-184 | the attribute goes in front of the old list, which grows by one; the override is unchanged |
| Colours.Colour.DisableColour | color.go:376-381 | the override becomes "disabled", the attributes are unchanged, and the colour is suppressed whatever the global flag |
| Colours.Colour.EnableColour | color.go:383-387 | the override becomes "enabled", the attributes are unchanged, and the colour is never suppressed whatever the global flag |
| Colours.Colour.Sequence | color.go:347-356 | filling the slice with each rendered parameter and joining with ';' yields the parameter string, which reads back as the attributes |
| Colours.Colour.Format | color.go:368-370 | format() is a well-formed SGR sequence that encodes exactly the colour's attributes |
| Colours.Colour.Unformat | color.go:372-374 | unformat() is ESC '[0m' for every colour, which is the SGR sequence of [Reset] |
| Colours.Colour.IsNoColourSet | color.go:389-397 | suppressed exactly when the override is "disabled", or there is no override and the global flag is set |
| Colours.Colour.Wrap | color.go:358-366 | the result equals the text exactly when the colour is suppressed; otherwise it is longer by the prefix and the reset sequence |
| Colours.Colour.Equals | color.go:399-412 | equal exactly when the lengths agree and every attribute of the receiver occurs in the argument |
| Colours.Colour.SetWriter | color.go:152-159 | writes format() unless the colour is suppressed, and nothing else; returns the receiver |
| Colours.Colour.UnsetWriter | color.go:161-171 | writes the reset sequence only when the colour is not suppressed and the global flag is not set |
| Colours.Colour.Emission | color.go:152-196 | the chunks of the Fprint family differ from the balanced order exactly when an enabled colour meets the global flag, and then only by the missing reset |
| Colours.Colour.ResolvedEmission | color.go:152-171 | the corrected order: only the payload when suppressed, otherwise prefix, payload and reset, the payload always in the middle |
| Colours.Colour.Fprint | color.go:186-196 | the writer receives prefix (unless suppressed), payload, then reset (unless suppressed or global flag), in this order; the count is the payload's |
| Colours.Unset | color.go:124-132 | the package-level Unset writes the reset sequence exactly when the global flag is not set, whatever any colour's override |
| Writers.Writer.Write | color.go:157 | a write appends its chunk to the log, after everything written before, and reports its length |
| Colours.OverridePrecedence | color.go:389-397 | "disabled" always suppresses, "enabled" never does, and with no override the global flag decides |
| Colours.WrapSuppressed | color.go:358-366 | a suppressed wrap returns the text unchanged, so wrapping twice equals wrapping once |
| Colours.WrapParts | color.go:358-366 | an unsuppressed wrap is a prefix that reads back as the attributes, then the text, then the reset sequence |
| Colours.WrapInjective | color.go:358-366 | for one colour and flag, different texts never wrap to the same string |
| Colours.OverrideDecidesWrap | color.go:376-397 | an enabled colour wraps even under the global flag; a disabled colour returns plain text even without it |
| Colours.WrapExamples | color.go:358-374 | [FgRed] wraps "Error" as ESC '[31mError' ESC '[0m' and [Bold, FgGreen] wraps "OK" as ESC '[1;32mOK' ESC '[0m'; both return the plain text under the global flag |
| Colours.EqualsReflexive | color.go:399-412 | every colour equals itself |
| Colours.EqualsIgnoresOrder | color.go:399-412 | two colours whose attribute lists are permutations of each other are equal both ways |
| Colours.EqualsNeedsSameLength | color.go:400-402 | colours with lists of different lengths are never equal |
| Colours.EqualsNotSymmetric | color.go:399-422 | [1, 1] equals [1, 2] but not the other way round, although their multisets differ |
| Colours.EqualsExamples | color.go:399-412 | [FgCyan, Underline] equals [Underline, FgCyan]; [FgCyan] does not equal [FgCyan, FgCyan] |
| Colours.EmissionIsWrap | color.go:152-196 | unless an enabled colour meets the global flag, the chunks Fprint writes read exactly as wrap of the payload |
| Colours.UnbalancedEmission | color.go:161-171 | an enabled colour under the global flag gets its prefix and payload but no reset, unlike wrap |
| Colours.ResolvedEmissionIsWrap | color.go:161-171 | resolving suppression once for both writes makes the chunks always read as wrap of the payload |
| Cached.Cache.constructor | color.go:30-33 | the cache starts empty |
| Cached.Cache.GetCachedColour | color.go:428-439 | a present attribute returns the stored colour and changes nothing; an absent one stores and returns a fresh New(p); every cached colour holds [p] with no override, and no other entry changes |
| Cached.CacheOneColourPerAttribute | color.go:428-439 | two different attributes never share a cached colour |
| Cached.LookUpTwice | color.go:428-439 | two lookups of one attribute return the same object, and the map grows by at most one entry |
| Cached.WithTrailingNewline | color.go:444-446 | the result ends in a newline and extends the format by at most one character, exactly when the format did not already end in one |
| Cached.TrailingNewlineIdempotent | color.go:444-446 | applying the newline rule twice equals applying it once |
| Cached.ColourPrint | color.go:441-453 | writes ESC '[p m', the newline-terminated payload and the reset, or only the payload under the global flag |
| Cached.ColourString | color.go:455-463 | returns the payload wrapped in the single-attribute sequence and the reset, or the plain payload under the global flag; no newline is added |

## Left out

- The initial value of `NoColour` comes from the TERM variable and terminal detection (color.go:20-21). This is environment I/O, so the flag is a parameter of every member that reads it.
- The `colorable` writers `Output` and `Error` (color.go:25, 28) are foreign I/O. Writers are an abstract append-only log.
- `Print`, `Printf` and `Println` (color.go:198-252) are `Colours.Colour.Fprint` with `Output` as the writer.
- The methods `Set` and `unset` (color.go:134-150) are `Colours.Colour.SetWriter` and `Colours.Colour.UnsetWriter` with `Output` as the writer; `unset` reaches the global-flag recheck through `Unset`.
- The package-level `Set(p...)` (color.go:116-122) is `Colours.Colour.SetWriter` of a colour built by `New(p...)`, on `Output`. It is not a separate member.
- Go reads the global `NoColour` once in `setWriter` (color.go:153, through `isNoColourSet`) and again in `unsetWriter` (color.go:166). The model passes one `globalNoColour` to both, so a change of the flag between the prefix and the reset, by another goroutine, cannot be expressed.
- `Fprintf` and `Fprintln` (color.go:210-240) differ from `Fprint` only in how the host formats the operands. The payload is an opaque string, so all three are `Colours.Colour.Fprint`.
- `Sprint`, `Sprintf` and `Sprintln` (color.go:254-267) are `wrap` of host-formatted text. The host's `fmt` formatting of `interface{}` operands is not modelled. In `Cached.ColourPrint` and `Cached.ColourString` it is the function parameter `printf` or `sprintf`.
- The closure-returning `*Func` methods (color.go:269-345) and the per-colour helpers `Black`, `Red`, `RedString` and the rest (color.go:465-603) only pass a constant attribute on.
- The mutex around the cache (color.go:33, 429-430) is about concurrency. The cache is modelled sequentially.
- Colours.Colour.Fprint: returns the payload's length in characters, where Go reports UTF-8 bytes. It also never fails, where Go passes on the writer's error.
- `Attribute` is Go's platform-sized `int` (32 or 64 bits). The model uses unbounded integers. No operation here does arithmetic on attributes, so only values Go cannot hold differ.
- Colours.Colour.Equals: takes a non-null colour. Go's `Equals(nil)` panics, and that is not modelled.
- doc.go holds package documentation only and is not part of this model.

## Findings

| source | as written | input that shows it | evidently intended | confidence | as-written member | corrected member |
|---|---|---|---|---|---|---|
| color.go:161-171 | `unsetWriter` returns early when the global `NoColour` is set, even though `setWriter` already wrote the prefix for a colour forced on by `EnableColour` | `c := New(FgRed); c.EnableColour(); NoColour = true; c.Fprint(w, "x")` writes ESC `[31m` and `x` and no reset, so the terminal stays red | resolve suppression once per call and write the reset exactly when the prefix was written | high; not executed | Colours.UnbalancedEmission | Colours.ResolvedEmissionIsWrap |

`Colours.Colour.Fprint` keeps the behaviour as written, because it is the package's observable output. `Colours.Colour.ResolvedEmission` is the corrected order, `Colours.Colour.Emission` states exactly where the two differ, and `Colours.ResolvedEmissionIsWrap` proves that it always agrees with `wrap`. Colours from the cache never carry an override, so `Cached.ColourPrint` never meets the discrepancy.
