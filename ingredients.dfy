/** The ingredient list of a request: the `ingredients` field split on `","`, and the
    comma-and-space re-join that the recipe prompt embeds. */
module Ingredients {
  import opened PyStr

  /** `data['ingredients'].split(",")`: one piece per comma plus one, no piece holding
      a comma, and nothing trimmed, so joining on `","` gives the field back. */
  function SplitIngredients(field: string): (items: seq<string>)
    ensures |items| == Count(field, ',') + 1
    ensures forall k :: 0 <= k < |items| ==> ',' !in items[k]
    ensures Join(items, ",") == field
  {
    SplitCount(field, ',');
    SplitPiecesFree(field, ',');
    SplitJoinRoundTrip(field, ',');
    Split(field, ',')
  }

  /** `', '.join(ingredients)`, the ingredient text of the recipe prompt. */
  function PromptIngredients(ingredients: seq<string>): string
  {
    Join(ingredients, ", ")
  }

  /** The split pieces are determined by the field: any comma-free list that joins
      back to the field on `","` is the split of the field. */
  lemma {:induction false} SplitIngredientsUnique(items: seq<string>, field: string)
    requires |items| >= 1
    requires forall k :: 0 <= k < |items| ==> ',' !in items[k]
    requires Join(items, ",") == field
    ensures SplitIngredients(field) == items
  {
    SplitUnique(items, field, ',');
  }

  /** The blank after a comma stays on the next ingredient: the pieces of
      `a + "," + b` are those of `a` followed by those of `b`. */
  lemma {:induction false} SplitIngredientsConcat(a: string, b: string)
    ensures SplitIngredients(a + "," + b) == SplitIngredients(a) + SplitIngredients(b)
  {
    SplitConcat(a, b, ',');
  }

  /** Splitting on `","` and re-joining with `", "` widens every comma of the field to
      a comma and a space (a field `"gin, lime"` reaches the prompt as `"gin,  lime"`). */
  lemma {:induction false} PromptWidensCommas(field: string)
    ensures PromptIngredients(SplitIngredients(field)) == Replace(field, ',', ", ")
    ensures |PromptIngredients(SplitIngredients(field))| == |field| + Count(field, ',')
  {
    JoinSplit(field, ',', ", ");
    ReplaceLength(field, ',', ", ");
  }

  /** Replacing each `c` by `with` adds `|with| - 1` characters per occurrence. */
  lemma {:induction false} ReplaceLength(s: string, c: char, with: string)
    requires |with| >= 1
    ensures |Replace(s, c, with)| == |s| + Count(s, c) * (|with| - 1)
  {
    if s != [] {
      ReplaceLength(s[1..], c, with);
    }
  }
}
