/** `Visualizer.samples`: prior samples are drawn by switching the shared latent
    traverser into prior mode for one grid draw and switching it back afterwards. */
module Samples {
  import opened Tensor

  /** The part of the latent traverser that `samples` touches: its mode flag and its grid
      draw. The draw itself is a collaborator; `draw` is what it yields in each mode. */
  class LatentTraverser {
    /** `sample_prior`: draw from the prior instead of traversing. */
    var samplePrior: bool
    /** The mode of every grid draw so far, oldest first. */
    ghost var modesSeen: seq<bool>
    const draw: (bool, nat, nat) -> seq<seq<real>>

    constructor(samplePrior: bool, draw: (bool, nat, nat) -> seq<seq<real>>)
      ensures this.samplePrior == samplePrior && this.draw == draw && modesSeen == []
    {
      this.samplePrior := samplePrior;
      this.draw := draw;
      modesSeen := [];
    }

    /** `traverse_grid(size=(rows, cols))`: draws in the current mode. */
    method TraverseGrid(rows: nat, cols: nat) returns (latents: seq<seq<real>>)
      modifies this`modesSeen
      ensures modesSeen == old(modesSeen) + [samplePrior]
      ensures latents == draw(samplePrior, rows, cols)
    {
      modesSeen := modesSeen + [samplePrior];
      latents := draw(samplePrior, rows, cols);
    }
  }

  class Visualizer {
    const traverser: LatentTraverser
    /** The model's decoder. */
    const decode: seq<seq<real>> -> seq<Image>

    constructor(traverser: LatentTraverser, decode: seq<seq<real>> -> seq<Image>)
      ensures this.traverser == traverser && this.decode == decode
    {
      this.traverser := traverser;
      this.decode := decode;
    }

    /** Exactly one grid is drawn, in prior mode, and decoded; the traverser's mode is
        afterwards what it was before. */
    method Samples(rows: nat, cols: nat) returns (generated: seq<Image>)
      modifies traverser
      ensures traverser.samplePrior == old(traverser.samplePrior)
      ensures traverser.modesSeen == old(traverser.modesSeen) + [true]
      ensures generated == decode(traverser.draw(true, rows, cols))
    {
      var cached := traverser.samplePrior;
      traverser.samplePrior := true;
      var priorSamples := traverser.TraverseGrid(rows, cols);
      traverser.samplePrior := cached;
      generated := decode(priorSamples);
    }
  }
}
