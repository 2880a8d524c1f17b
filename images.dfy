/** The step images: `[generate_step_image(step) for step in steps]`, with the image
    generator, a call to a remote service, passed in as a function of the step. */
module Images {

  /** One image per step, in step order: the generator applied to each step in turn. */
  function StepImages(steps: seq<string>, image: string -> string): (images: seq<string>)
    ensures |images| == |steps|
    ensures forall i :: 0 <= i < |steps| ==> images[i] == image(steps[i])
  {
    if steps == [] then [] else [image(steps[0])] + StepImages(steps[1..], image)
  }

  /** The images of two runs of steps are the images of each, one after the other. */
  lemma {:induction false} StepImagesConcat(a: seq<string>, b: seq<string>, image: string -> string)
    ensures StepImages(a + b, image) == StepImages(a, image) + StepImages(b, image)
  {
    var ab := StepImages(a + b, image);
    var both := StepImages(a, image) + StepImages(b, image);
    assert |ab| == |both|;
    forall i | 0 <= i < |ab| ensures ab[i] == both[i] {
      if i < |a| {
        assert (a + b)[i] == a[i];
      } else {
        assert (a + b)[i] == b[i - |a|];
      }
    }
  }
}
