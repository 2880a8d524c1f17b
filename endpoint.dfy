/** The data flow of the `/generate` handler: split the ingredient field, ask the
    completion service for a recipe, extract its steps and ask the image service for
    one image per step. The two remote services are function parameters: `complete`
    receives the joined ingredient text and the cocktail type that the recipe prompt
    embeds, and `image` receives one step. */
module Endpoint {
  import opened PyStr
  import opened Steps
  import opened Ingredients
  import opened Images

  /** The three fields of the JSON response. */
  datatype Response = Response(recipe: string, steps: seq<string>, images: seq<string>)

  /** `generate_cocktail_recipe`: the completion for the prompt built from the
      comma-and-space join of the ingredients and the cocktail type. */
  function RecipeFor(ingredients: seq<string>, cocktailType: string,
                     complete: (string, string) -> string): string
  {
    complete(PromptIngredients(ingredients), cocktailType)
  }

  /** The `/generate` handler after JSON decoding: the recipe is the completion for the
      field with each comma widened to `", "`, the steps are the recipe's steps, and
      the images pair with the steps one to one, none when the recipe has no step. */
  method Generate(ingredientsField: string, cocktailType: string,
                  complete: (string, string) -> string, image: string -> string)
    returns (resp: Response)
    ensures resp.recipe == complete(Replace(ingredientsField, ',', ", "), cocktailType)
    ensures resp.steps == ExtractSteps(resp.recipe)
    ensures |resp.images| == |resp.steps|
    ensures forall i :: 0 <= i < |resp.steps| ==> resp.images[i] == image(resp.steps[i])
    ensures (forall j :: 0 <= j < |Split(resp.recipe, '\n')| ==> !HasStepMarker(Strip(Split(resp.recipe, '\n')[j])))
      ==> resp.steps == [] && resp.images == []
  {
    var ingredients := SplitIngredients(ingredientsField);
    PromptWidensCommas(ingredientsField);
    var recipe := RecipeFor(ingredients, cocktailType, complete);
    var steps := ParseRecipeForSteps(recipe);
    var images := StepImages(steps, image);
    var lines := Split(recipe, '\n');
    forall j | 0 <= j < |lines| ensures HasStepMarker(Strip(lines[j])) <==> IsStepLine(Strip(lines[j])) {
      StepLineIsDigitDot(Strip(lines[j]));
    }
    NoStepsIff(lines);
    resp := Response(recipe, steps, images);
  }

  /** The sample request, ingredient side: the field `"gin, lime, soda"` splits into
      three pieces that keep the blanks after the commas. */
  lemma {:induction false} ScenarioIngredients(gin: string, lime: string, soda: string)
    requires gin == "gin" && lime == " lime" && soda == " soda"
    ensures SplitIngredients(gin + "," + lime + "," + soda) == [gin, lime, soda]
  {
    var rest := lime + "," + soda;
    assert gin + "," + lime + "," + soda == gin + "," + rest;
    assert SplitIngredients(rest) == [lime] + [soda] by {
      SplitIngredientsConcat(lime, soda);
      SplitNoSeparator(lime, ',');
      SplitNoSeparator(soda, ',');
    }
    assert SplitIngredients(gin + "," + rest) == [gin] + ([lime] + [soda]) by {
      SplitIngredientsConcat(gin, rest);
      SplitNoSeparator(gin, ',');
    }
  }

  /** The sample request, recipe side: the three numbered lines of the stubbed
      completion, joined by newlines, give those three lines as steps. */
  lemma {:induction false} ScenarioSteps(a: string, b: string, c: string)
    requires a == "1. Fill glass with ice" && b == "2. Add gin and lime" && c == "3. Top with soda"
    ensures ExtractSteps(a + "\n" + b + "\n" + c) == [a, b, c]
  {
    ThreeLineRecipe(a, b, c);
  }

  /** The sample request, image side: a service returning one fixed address gives
      three copies of it for three steps. */
  lemma {:induction false} ScenarioImages()
    ensures StepImages(["1. Fill glass with ice", "2. Add gin and lime", "3. Top with soda"],
                       _ => "http://img/x")
      == ["http://img/x", "http://img/x", "http://img/x"]
  {
  }

  /** A sample request with stubbed services: the field `"gin, lime, soda"`, a
      completion that always returns the three-line recipe, and an image service that
      always returns one address. The response carries that recipe, its three lines
      as steps and three copies of the address. */
  method SampleRequest(a: string, b: string, c: string) returns (resp: Response)
    requires a == "1. Fill glass with ice" && b == "2. Add gin and lime" && c == "3. Top with soda"
    ensures resp.recipe == a + "\n" + b + "\n" + c
    ensures resp.steps == [a, b, c]
    ensures resp.images == ["http://img/x", "http://img/x", "http://img/x"]
  {
    var recipe := a + "\n" + b + "\n" + c;
    resp := Generate("gin, lime, soda", "refreshing", (_, _) => recipe, _ => "http://img/x");
    ScenarioSteps(a, b, c);
  }
}
