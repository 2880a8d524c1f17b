# Cocktail recipe generator: the text handling, in Dafny

The repository is a one-route web service. A `POST /generate` request carries a
comma-separated `ingredients` string and a `cocktail_type` string. The handler
splits the ingredient string on `","`, asks a language-model completion service
for a recipe (the prompt embeds the ingredients joined with `", "`), extracts the
numbered preparation steps from the recipe text, and asks an image service for one
picture per step. The response carries the recipe, the steps and the image
addresses.

This project models the parts of that flow that are logic rather than plumbing:

- `PyStr` (pystr.dfy): the Python `str` built-ins the handler relies on, over
  `seq<char>`: `split` with a one-character separator (the empty string gives
  `[""]`, adjacent separators give empty pieces), `join`, `strip()` with no
  argument, and `startswith` with a tuple of prefixes. `Count` and `Replace`,
  modelled on `count` and `replace`, are not called by the handler; they are
  helpers in which properties of `split` and `join` are stated. Whitespace is the
  set of code points for which Python 3's `str.isspace()` is true: U+0009 to
  U+000D, U+001C to U+0020, U+0085, U+00A0, U+1680, U+2000 to U+200A, U+2028,
  U+2029, U+202F, U+205F and U+3000.
- `Steps` (steps.dfy): `parse_recipe_for_steps`, as a method with the source's
  loop and accumulator, proved equal to the pure filter `ExtractSteps`, with the
  properties of that filter proved as lemmas.
- `Ingredients` (ingredients.dfy): the `split(",")` of the ingredient field and
  the `", ".join` that the recipe prompt embeds.
- `Images` (images.dfy): the list comprehension that generates one image per step.
- `Endpoint` (endpoint.dfy): the data flow of the handler from the decoded fields
  to the three response fields, plus a sample request with stubbed services.

The two remote services are function-typed parameters: `complete` receives the
joined ingredient text and the cocktail type, and `image` receives one step. Both
are arbitrary total functions, so every property holds whatever they return.

## Model

| member | source | states |
|---|---|---|
| PyStr.Join | main.py:17 | `sep.join(pieces)`: no pieces give `""`, one piece gives itself, otherwise the pieces with `sep` between each two; `SplitJoinRoundTrip` and `SplitUnique` tie it to `Split` |
| PyStr.Split | main.py:36 | `s.split(c)` always has at least one piece, even for the empty string |
| PyStr.SplitCount | main.py:36 | `s.split(c)` has one piece more than `s` has `c`s |
| PyStr.SplitPiecesFree | main.py:36 | no piece of `s.split(c)` holds `c` |
| PyStr.SplitNoSeparator | main.py:36 | a string without the separator splits into itself alone |
| PyStr.SplitConcat | main.py:36 | the pieces of `a + c + b` are the pieces of `a` followed by the pieces of `b` |
| PyStr.JoinSplit | main.py:58 | joining the pieces of `s.split(c)` with any separator `sep` equals `s.replace(c, sep)` |
| PyStr.SplitJoinRoundTrip | main.py:58 | `c.join(s.split(c)) == s` for every `s` |
| PyStr.SplitUnique | main.py:58 | any non-empty list of `c`-free pieces that `c.join` turns into `s` is `s.split(c)` |
| PyStr.IsSpace | main.py:38-39 | the characters `strip()` removes: the code points for which Python 3's `str.isspace()` holds |
| PyStr.Strip | main.py:38-39 | `line.strip()` is `rstrip()` of `lstrip()`; it is no longer than the line and neither starts nor ends with whitespace |
| PyStr.TrimStart | main.py:38-39 | `lstrip()` is no longer than its input and does not start with whitespace |
| PyStr.TrimEnd | main.py:38-39 | `rstrip()` is no longer than its input and does not end with whitespace |
| PyStr.TrimStartIsSuffix | main.py:38-39 | `lstrip()` is a suffix of its input and everything it removes is whitespace |
| PyStr.TrimEndIsPrefix | main.py:38-39 | `rstrip()` is a prefix of its input and everything it removes is whitespace |
| PyStr.StripIsSlice | main.py:38-39 | `strip()` is a slice `s[i..j]` with no whitespace at either end, and `s` outside the slice is all whitespace |
| PyStr.StripStripped | main.py:39 | `strip()` leaves a string without surrounding whitespace unchanged |
| PyStr.StripIdempotent | main.py:39 | stripping twice equals stripping once |
| PyStr.StartsWithAny | main.py:38 | `s.startswith(prefixes)` with a tuple, tried prefix by prefix; `StartsWithAnyExists` characterises it |
| PyStr.StartsWithAnyExists | main.py:38 | `startswith` with a tuple holds exactly when one of the tuple's prefixes matches |
| Steps.HasStepMarker | main.py:38 | the source's test on a stripped line: `startswith` with the tuple `"1."` to `"9."` |
| Steps.StepsOf | main.py:37-39 | the stripped lines of a list of lines that pass the marker test, in order; `StepsAreOrderedFilter` characterises it |
| Steps.ExtractSteps | main.py:34-40 | the steps of a recipe text: `StepsOf` of its `split("\n")` pieces, the value the extractor loop is proved to return |
| Steps.ParseRecipeForSteps | main.py:34-40 | the loop returns `ExtractSteps(text)`, at most one step per line (newlines plus one), each with a step marker and no surrounding whitespace |
| Steps.StepLineIsDigitDot | main.py:38 | the tuple test `"1."`..`"9."` holds exactly for strings whose first character is `'1'`..`'9'` and whose second is `'.'`, both directions |
| Steps.StepsBound | main.py:36-40 | there are no more steps than lines |
| Steps.StepsAreStrippedMarkers | main.py:38-39 | every step passes the marker test and has no leading or trailing whitespace |
| Steps.StepShape | main.py:38-39 | every step is unchanged by `strip()`, is at least two characters long and starts with a digit 1-9 and a period |
| Steps.StepsOfConcat | main.py:37-39 | the steps of two runs of lines are the steps of the first followed by the steps of the second |
| Steps.ExtractStepsNewline | main.py:36-39 | `parse(a + "\n" + b) == parse(a) + parse(b)` |
| Steps.StepsAreOrderedFilter | main.py:36-39 | the steps are the stripped lines at a strictly increasing list of indices that holds exactly the indices of marker lines: original order, duplicates kept, nothing else |
| Steps.NoStepsIff | main.py:35-40 | the step list is empty if and only if no stripped line passes the marker test |
| Steps.ExtractStepsBound | main.py:36-40 | the text has `count("\n") + 1` lines and at most that many steps |
| Steps.EmptyTextNoSteps | main.py:35-40 | the empty text splits into one empty line and yields no steps |
| Steps.SingleLine | main.py:36-39 | a text without a newline yields its stripped self when that passes the marker test and nothing otherwise |
| Steps.TwoDigitIsNotAStep | main.py:38 | a line numbered `10.` to `99.`, after any whitespace other than a newline and whatever follows, yields no step |
| Steps.PaddedStepIsStripped | main.py:38-39 | a step line padded with blanks on both sides yields the unpadded line, marker kept |
| Steps.PadStrip | main.py:39 | `strip()` removes exactly the blank padding around a non-empty stripped string |
| Steps.ThreeLineRecipe | main.py:36-39 | three step lines joined by newlines yield exactly those three steps in order |
| Ingredients.PromptIngredients | main.py:17 | the ingredient text of the recipe prompt: the pieces joined with `", "` |
| Ingredients.SplitIngredients | main.py:58 | the ingredient list has one piece more than the field has commas, no piece holds a comma, and joining on `","` gives the field back |
| Ingredients.SplitIngredientsUnique | main.py:58 | the ingredient list is the only comma-free list that joins back to the field |
| Ingredients.SplitIngredientsConcat | main.py:58 | no trimming: the pieces of `a + "," + b` are those of `a` followed by those of `b`, blanks kept |
| Ingredients.PromptWidensCommas | main.py:17 | re-joining the split field with `", "` turns every comma of the field into `", "`, lengthening it by one character per comma |
| Images.StepImages | main.py:66 | one image per step, and image `i` is the generator applied to step `i` |
| Images.StepImagesConcat | main.py:66 | the images of two runs of steps are the images of each, one after the other |
| Endpoint.RecipeFor | main.py:15-32 | `generate_cocktail_recipe`: the completion service applied to the `", "` join of the ingredients and the cocktail type |
| Endpoint.Generate | main.py:56-66 | the recipe is the completion for the field with commas widened to `", "`, the steps are the recipe's steps, the images pair one to one with the steps, and no marker line means no steps and no images |
| Endpoint.ScenarioIngredients | main.py:58 | `"gin, lime, soda"` splits into `"gin"`, `" lime"`, `" soda"` |
| Endpoint.ScenarioSteps | main.py:65 | the sample recipe `"1. Fill glass with ice\n2. Add gin and lime\n3. Top with soda"` yields its three lines as steps |
| Endpoint.ScenarioImages | main.py:66 | an image service returning one fixed address gives three copies of it for three steps |
| Endpoint.SampleRequest | main.py:56-66 | a request for `"gin, lime, soda"` with a completion stub returning the three-line sample recipe and an image stub returning one address responds with that recipe, its three lines as steps and three copies of the address |

## Left out

- The completion call inside `generate_cocktail_recipe` (main.py:24-32) and the image call inside `generate_step_image` (main.py:44-49) are remote services; they are the function parameters `complete` and `image`.
- The wording of the two prompt templates (main.py:16-23, 43) is fixed text; only the `", "` join at main.py:17 is modelled, and `complete` receives the joined text and the cocktail type instead of the finished prompt.
- Flask routing, template rendering, `request.json` decoding and `jsonify` (main.py:13, 51-53, 55-57, 68-72) are web framework plumbing; `Endpoint.Generate` starts from the decoded field values and returns the three response fields as a datatype.
- Loading the credential from the environment and starting the server (main.py:7, 10, 74-75) are process configuration.
- Errors are not modelled: a missing request field, a failing remote call, or a failure part way through the image loop raises an exception in the source and aborts the request; the model's services are total functions.
- The order and number of image requests is not modelled as an effect; `image` is a pure function, so only the one-to-one, in-order pairing of steps and images is stated. A consequence: two equal steps always get equal images in the model, whereas the live service is called once per step and may return a different image each time.
- Whitespace follows the whitespace set of recent Python 3 releases; the exact set depends on the Unicode database the interpreter ships with.
- Python strings may hold lone surrogate code points; Dafny's `char` excludes them, so such strings are outside the model.
