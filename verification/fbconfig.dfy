/** Frame-buffer-config selection in `SDL_CreateWindowEx`
    (sdlx11.cpp:33-57): scan the configs `glXChooseFBConfig` returned for
    one with a visual, a render picture format and a non-zero alpha mask,
    falling back to the last one that has a visual and a picture format. */
module FbConfig {
  import opened Wrappers

  /** What the loop learns about one candidate: whether
      `glXGetVisualFromFBConfig` gave a visual, whether
      `XRenderFindVisualFormat` gave a picture format, and that format's
      alpha mask. */
  datatype Candidate = Candidate(hasVisual: bool, hasPictFormat: bool, alphaMask: int)

  predicate Usable(c: Candidate) {
    c.hasVisual && c.hasPictFormat
  }

  predicate HasAlpha(c: Candidate) {
    Usable(c) && c.alphaMask > 0
  }

  /** No candidate before index `i` has alpha. */
  predicate NoAlphaBefore(cs: seq<Candidate>, i: int)
    requires i <= |cs|
  {
    forall j :: 0 <= j < i ==> !HasAlpha(cs[j])
  }

  /** `config` is the last usable candidate before index `i`, or None when
      there is none. */
  predicate LastUsableBefore(cs: seq<Candidate>, i: int, config: Option<nat>)
    requires i <= |cs|
  {
    match config
    case None => forall j :: 0 <= j < i ==> !Usable(cs[j])
    case Some(k) => k < i && Usable(cs[k]) && forall j :: k < j < i ==> !Usable(cs[j])
  }

  /** The selection rule, stated without the loop: the first candidate with
      alpha if there is one, else the last usable one, else none. */
  ghost predicate Selects(cs: seq<Candidate>, config: Option<nat>) {
    if exists i :: 0 <= i < |cs| && HasAlpha(cs[i]) then
      config.Some? && config.value < |cs| && HasAlpha(cs[config.value])
      && NoAlphaBefore(cs, config.value)
    else
      LastUsableBefore(cs, |cs|, config)
  }

  /** The loop state: the candidate last stored in `fbconfig`, and the
      candidate whose visual the variable `visual` holds (None: NULL). */
  datatype Choice = Choice(config: Option<nat>, visual: Option<nat>)

  /** The loop exactly as written: `visual` is overwritten by every lookup,
      including those of candidates that are then skipped. */
  function ScanAsWritten(cs: seq<Candidate>, i: nat, acc: Choice): (r: Choice)
    requires i <= |cs|
    ensures acc.config.Some? ==> r.config.Some?
    ensures r.config == acc.config
            || (r.config.Some? && i <= r.config.value < |cs| && Usable(cs[r.config.value]))
    decreases |cs| - i
  {
    if i == |cs| then acc
    else if !cs[i].hasVisual then ScanAsWritten(cs, i + 1, Choice(acc.config, None))
    else if !cs[i].hasPictFormat then ScanAsWritten(cs, i + 1, Choice(acc.config, Some(i)))
    else if cs[i].alphaMask > 0 then Choice(Some(i), Some(i))
    else ScanAsWritten(cs, i + 1, Choice(Some(i), Some(i)))
  }

  /** The selection as written; `visual` starts uninitialised (None here). */
  function SelectAsWritten(cs: seq<Candidate>): (r: Choice)
    ensures r.config.None? <==> forall j :: 0 <= j < |cs| ==> !Usable(cs[j])
  {
    ScanAsWrittenPicksSameConfig(cs, 0, Choice(None, None));
    ScanAsWritten(cs, 0, Choice(None, None))
  }

  /** The loop with the visual kept together with the config it belongs to. */
  function Scan(cs: seq<Candidate>, i: nat, config: Option<nat>): (r: Choice)
    requires i <= |cs|
    requires NoAlphaBefore(cs, i)
    requires LastUsableBefore(cs, i, config)
    ensures Selects(cs, r.config)
    ensures r.visual == r.config
    decreases |cs| - i
  {
    if i == |cs| then Choice(config, config)
    else if !Usable(cs[i]) then Scan(cs, i + 1, config)
    else if cs[i].alphaMask > 0 then Choice(Some(i), Some(i))
    else Scan(cs, i + 1, Some(i))
  }

  /** The corrected selection: the window is built with the visual of the
      config that was chosen. */
  function Select(cs: seq<Candidate>): (r: Choice)
    ensures Selects(cs, r.config)
    ensures r.visual == r.config
    ensures r.config.None? <==> forall j :: 0 <= j < |cs| ==> !Usable(cs[j])
  {
    Scan(cs, 0, None)
  }

  /** The code as written picks the same config as the rule. */
  lemma {:induction false} ScanAsWrittenPicksSameConfig(cs: seq<Candidate>, i: nat, acc: Choice)
    requires i <= |cs|
    requires NoAlphaBefore(cs, i)
    requires LastUsableBefore(cs, i, acc.config)
    ensures ScanAsWritten(cs, i, acc).config == Scan(cs, i, acc.config).config
    decreases |cs| - i
  {
    if i < |cs| {
      if !cs[i].hasVisual {
        ScanAsWrittenPicksSameConfig(cs, i + 1, Choice(acc.config, None));
      } else if !cs[i].hasPictFormat {
        ScanAsWrittenPicksSameConfig(cs, i + 1, Choice(acc.config, Some(i)));
      } else if cs[i].alphaMask <= 0 {
        ScanAsWrittenPicksSameConfig(cs, i + 1, Choice(Some(i), Some(i)));
      }
    }
  }

  lemma SelectAsWrittenPicksSameConfig(cs: seq<Candidate>)
    ensures SelectAsWritten(cs).config == Select(cs).config
    ensures Selects(cs, SelectAsWritten(cs).config)
  {
    ScanAsWrittenPicksSameConfig(cs, 0, Choice(None, None));
  }

  /** Where the visual of the code as written comes from: the chosen config
      when one with alpha was found, otherwise the lookup for the last
      candidate, whichever config was chosen. */
  lemma {:induction false} ScanAsWrittenVisual(cs: seq<Candidate>, i: nat, acc: Choice)
    requires i < |cs|
    ensures var r := ScanAsWritten(cs, i, acc);
            var last := |cs| - 1;
            if exists k :: i <= k < |cs| && HasAlpha(cs[k]) then r.visual == r.config
            else r.visual == (if cs[last].hasVisual then Some(last) else None)
    decreases |cs| - i
  {
    if i + 1 < |cs| {
      var next :=
        if !cs[i].hasVisual then Choice(acc.config, None)
        else if !cs[i].hasPictFormat then Choice(acc.config, Some(i))
        else Choice(Some(i), Some(i));
      ScanAsWrittenVisual(cs, i + 1, next);
      if !HasAlpha(cs[i]) {
        assert ScanAsWritten(cs, i, acc) == ScanAsWritten(cs, i + 1, next);
        if exists k :: i <= k < |cs| && HasAlpha(cs[k]) {
          var k :| i <= k < |cs| && HasAlpha(cs[k]);
          assert k != i;
        }
      }
    }
  }

  /** In the fallback the code as written can end with no visual at all
      although a config was chosen: the next statement reads
      `visual->screen` through a NULL pointer. */
  lemma AsWrittenFallbackLosesVisual()
    ensures var cs := [Candidate(true, true, 0), Candidate(false, false, 0)];
            SelectAsWritten(cs) == Choice(Some(0), None)
            && Select(cs) == Choice(Some(0), Some(0))
  {
  }

  /** In the fallback the code as written can pair the chosen config with
      the visual of another candidate, so the window's visual and the GL
      context's config disagree. */
  lemma AsWrittenFallbackMixesVisual()
    ensures var cs := [Candidate(true, true, 0), Candidate(true, false, 0)];
            SelectAsWritten(cs) == Choice(Some(0), Some(1))
            && Select(cs) == Choice(Some(0), Some(0))
  {
  }
}
