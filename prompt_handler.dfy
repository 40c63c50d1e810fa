/**
 * The prompt handler: a two-state machine on its `prompting` flag that turns
 * the buffer into split pieces and starts the worker, or asks a running
 * generation to end. The worker's own signals are relayed unchanged.
 */
module PromptHandler {
  import opened Text
  import opened Transcript

  /** A signal the handler emits, to the worker or to the window. */
  datatype HandlerSignal =
    | EndGenerationRequested
    | StartPrompt(model: string, split: seq<string>, delims: Delims, sysPrompt: string)
    | UpdatePrevModel(model: string)
    | Progress(text: string)
    | ReGen

  /** A text starts a prompt exactly when some marker occurs in it; the split then has a pair. */
  lemma {:induction false} SplitHasPairIffMarker(text: string, d: Delims)
    ensures |SplitText(text, d)| >= 2 <==> NextMatch(text, 0, d, true).Some?
  {
    SplitTextEmpty(text, d);
    SplitTextPartition(text, d);
  }

  class Handler {
    /** Set while a prompt is being generated. */
    var prompting: bool

    constructor()
      ensures !prompting
    {
      prompting := false;
    }

    /** `endPrompt`, connected to the worker's `finished`: generation is over. */
    method EndPrompt()
      modifies this
      ensures !prompting
    {
      prompting := false;
    }

    /** `chunk`: a worker progress message is passed on as is, and the flag is left alone. */
    method Chunk(chunk: string) returns (signals: seq<HandlerSignal>)
      ensures signals == [Progress(chunk)]
    {
      signals := [Progress(chunk)];
    }

    /** `deleteForRegen`: the worker's regeneration signal is passed on. */
    method DeleteForRegen() returns (signals: seq<HandlerSignal>)
      ensures signals == [ReGen]
    {
      signals := [ReGen];
    }

    /**
     * `prompt`: while a generation runs, only ask it to end. Otherwise set the
     * flag and split the buffer; without a (marker, content) pair clear the flag
     * again and emit nothing, else start the worker on the pieces, with the
     * system prompt only when it is enabled, and report the model as the
     * previous one.
     */
    method Prompt(text: string, d: Delims, model: string, enableSysPrompt: bool, sysPrompt: string)
        returns (signals: seq<HandlerSignal>)
      modifies this
      ensures old(prompting) ==> prompting && signals == [EndGenerationRequested]
      ensures !old(prompting) && NextMatch(text, 0, d, true).None? ==> !prompting && signals == []
      ensures !old(prompting) && NextMatch(text, 0, d, true).Some? ==>
                prompting
                && signals == [StartPrompt(model, SplitText(text, d), d, if enableSysPrompt then sysPrompt else ""),
                               UpdatePrevModel(model)]
    {
      if prompting {
        signals := [EndGenerationRequested];
        return;
      }
      prompting := true;
      var split := SplitText(text, d);
      SplitHasPairIffMarker(text, d);
      if |split| < 2 {
        prompting := false;
        signals := [];
        return;
      }
      if enableSysPrompt {
        signals := [StartPrompt(model, split, d, sysPrompt)];
      } else {
        signals := [StartPrompt(model, split, d, "")];
      }
      signals := signals + [UpdatePrevModel(model)];
    }
  }
}
