/**
 * The cache of single-attribute colours used by the per-colour helpers,
 * and the two helpers every one of them calls: colourPrint, which makes the
 * format end in a newline and prints, and colourString, which only wraps.
 *
 * The cache is used sequentially here; the mutex that serialises it in a
 * concurrent program is not modelled.
 */
module Cached {
  import opened Options
  import opened Attributes
  import opened Writers
  import opened Colours
  import Sgr

  class Cache {
    /** coloursCache: at most one colour per attribute, created on first use. */
    var entries: map<Attribute, Colour>

    /** Every cached colour holds exactly its key, with no local override. */
    ghost predicate Valid()
      reads this, entries.Values
    {
      forall p :: p in entries ==> entries[p].params == [p] && entries[p].noColour == None
    }

    constructor ()
      ensures Valid()
      ensures entries == map[]
    {
      entries := map[];
    }

    /**
     * getCachedColour: the stored colour for p if there is one; otherwise a
     * fresh New(p), stored under p. No other entry changes.
     */
    method GetCachedColour(p: Attribute) returns (c: Colour)
      requires Valid()
      modifies this
      ensures Valid()
      ensures c.params == [p] && c.noColour == None
      ensures p in entries && entries[p] == c
      ensures entries.Keys == old(entries).Keys + {p}
      ensures forall q :: q in old(entries) ==> entries[q] == old(entries)[q]
      ensures p in old(entries) ==> c == old(entries)[p]
      ensures p !in old(entries) ==> fresh(c)
    {
      if p in entries {
        c := entries[p];
      } else {
        c := new Colour([p]);
        entries := entries[p := c];
      }
    }
  }

  /** Two attributes never share a cached colour. */
  lemma CacheOneColourPerAttribute(cache: Cache, p: Attribute, q: Attribute)
    requires cache.Valid()
    requires p in cache.entries && q in cache.entries && p != q
    ensures cache.entries[p] != cache.entries[q]
  {
  }

  /** Two lookups of the same attribute return one and the same colour. */
  method LookUpTwice(cache: Cache, p: Attribute) returns (first: Colour, second: Colour)
    requires cache.Valid()
    modifies cache
    ensures cache.Valid()
    ensures first == second
    ensures |cache.entries| <= |old(cache.entries)| + 1
  {
    first := cache.GetCachedColour(p);
    second := cache.GetCachedColour(p);
  }

  predicate HasSuffix(s: string, suffix: string) {
    |suffix| <= |s| && s[|s| - |suffix|..] == suffix
  }

  /**
   * The newline rule of colourPrint: the shortest extension of format that
   * ends in a newline.
   */
  function WithTrailingNewline(format: string): (r: string)
    ensures HasSuffix(r, "\n")
    ensures |format| <= |r| <= |format| + 1 && r[..|format|] == format
    ensures |r| == |format| <==> HasSuffix(format, "\n")
  {
    if HasSuffix(format, "\n") then format else format + "\n"
  }

  /** Applying the newline rule twice is applying it once. */
  lemma TrailingNewlineIdempotent(format: string)
    ensures WithTrailingNewline(WithTrailingNewline(format)) == WithTrailingNewline(format)
  {
  }

  /**
   * colourPrint: the cached colour for p prints the format completed with a
   * newline, as is without arguments (Print) or through the host's
   * formatter with them (Printf, the parameter printf). The cached colour
   * has no override, so prefix and reset are written together or not at all.
   */
  method ColourPrint(cache: Cache, out: Writer, format: string, p: Attribute,
                     hasArguments: bool, printf: string -> string, globalNoColour: bool)
    requires cache.Valid()
    modifies cache, out
    ensures cache.Valid()
    ensures p in cache.entries && cache.entries.Keys == old(cache.entries).Keys + {p}
    ensures var line := WithTrailingNewline(format);
      var payload := if hasArguments then printf(line) else line;
      out.log == old(out.log) +
        if globalNoColour then [payload] else [Sgr.Render([p]), payload, Sgr.ResetSequence]
  {
    var c := cache.GetCachedColour(p);
    var line := format;
    if !HasSuffix(line, "\n") {
      line := line + "\n";
    }
    var payload := line;
    if hasArguments {
      payload := printf(line);
    }
    var n := c.Fprint(out, payload, globalNoColour);
    assert c.IsNoColourSet(globalNoColour) == globalNoColour;
    assert c.Format() == Sgr.Render([p]);
    assert c.Emission(payload, globalNoColour) ==
      if globalNoColour then [payload] else [Sgr.Render([p]), payload, Sgr.ResetSequence];
  }

  /**
   * colourString: the cached colour for p wraps the format as is without
   * arguments, or the host's rendering of it with them; no newline is added.
   */
  method ColourString(cache: Cache, format: string, p: Attribute,
                      hasArguments: bool, sprintf: string -> string, globalNoColour: bool)
    returns (s: string)
    requires cache.Valid()
    modifies cache
    ensures cache.Valid()
    ensures p in cache.entries && cache.entries.Keys == old(cache.entries).Keys + {p}
    ensures var payload := if hasArguments then sprintf(format) else format;
      s == if globalNoColour then payload else Sgr.Render([p]) + payload + Sgr.ResetSequence
  {
    var c := cache.GetCachedColour(p);
    if !hasArguments {
      s := c.Wrap(format, globalNoColour);
    } else {
      s := c.Wrap(sprintf(format), globalNoColour);
    }
  }
}
