/**
 * The colour object: an ordered list of SGR attributes and a three-state
 * local override, the output gate that resolves the override against the
 * global NoColour flag, wrapping of text, equality, and the order in which
 * the Fprint family writes prefix, payload and reset.
 *
 * The global NoColour flag is the parameter globalNoColour of every member
 * that consults it, so it is read afresh on each call.
 */
module Colours {
  import opened Options
  import opened Attributes
  import opened Writers
  import Sgr

  /** attrExists: the linear search of a list for one attribute. */
  function AttrExists(ps: seq<Attribute>, a: Attribute): (r: bool)
    ensures r <==> a in ps
  {
    if |ps| == 0 then false else ps[0] == a || AttrExists(ps[1..], a)
  }

  /** The loop of Equals: stops at the first attribute of xs missing from ys. */
  function AllExist(xs: seq<Attribute>, ys: seq<Attribute>): (r: bool)
    ensures r <==> forall i :: 0 <= i < |xs| ==> xs[i] in ys
  {
    if |xs| == 0 then true else AttrExists(ys, xs[0]) && AllExist(xs[1..], ys)
  }

  class Colour {
    /** The SGR parameters, in the order they are emitted; duplicates are kept. */
    var params: seq<Attribute>
    /** The local override: None defers to the global flag, Some(true) disables, Some(false) enables. */
    var noColour: Option<bool>

    /** New: a colour holding exactly values, in order, with no local override. */
    constructor (values: seq<Attribute>)
      ensures params == values
      ensures noColour == None
    {
      params := [];
      noColour := None;
      new;
      var self := Add(values);
    }

    /** Add: appends values in order to the parameters and returns the receiver for chaining. */
    method Add(values: seq<Attribute>) returns (self: Colour)
      modifies this
      ensures self == this
      ensures params == old(params) + values
      ensures noColour == old(noColour)
    {
      params := params + values;
      self := this;
    }

    /** prepend: grows the slice by one, shifts it right, and stores value in front. */
    method Prepend(value: Attribute)
      modifies this
      ensures params == [value] + old(params)
      ensures |params| == |old(params)| + 1
      ensures noColour == old(noColour)
    {
      var n := |params|;
      params := params + [0];
      params := params[..1] + params[..n];
      params := [value] + params[1..];
    }

    /** DisableColour: the colour is suppressed whatever the global flag says. */
    method DisableColour()
      modifies this
      ensures noColour == Some(true)
      ensures params == old(params)
      ensures forall globalNoColour :: IsNoColourSet(globalNoColour)
    {
      noColour := Some(true);
    }

    /** EnableColour: the colour is emitted whatever the global flag says. */
    method EnableColour()
      modifies this
      ensures noColour == Some(false)
      ensures params == old(params)
      ensures forall globalNoColour :: !IsNoColourSet(globalNoColour)
    {
      noColour := Some(false);
    }

    /** isNoColourSet: the local override when one is set, otherwise the global flag. */
    predicate IsNoColourSet(globalNoColour: bool)
      reads this
      ensures IsNoColourSet(globalNoColour) <==>
        noColour == Some(true) || (noColour == None && globalNoColour)
    {
      if noColour.Some? then noColour.value else globalNoColour
    }

    /** sequence: each parameter rendered into a slice, then joined with ';'. */
    method Sequence() returns (s: string)
      ensures s == Sgr.Parameters(params)
      ensures Sgr.ParseParameters(s) == Some(params)
    {
      var format := new string[|params|];
      for i := 0 to |params|
        invariant forall k :: 0 <= k < i ==> format[k] == Sgr.Itoa(params[k])
      {
        format[i] := Sgr.Itoa(params[i]);
      }
      assert format[..] == Sgr.Decimals(params);
      s := Sgr.Join(format[..], Sgr.Separator);
      Sgr.ParametersRoundTrip(params);
    }

    /** format: the SGR sequence that switches this colour on; it encodes exactly params. */
    function Format(): (r: string)
      reads this
      ensures Sgr.ParseSgr(r) == Some(params)
    {
      Sgr.RenderRoundTrip(params);
      Sgr.Render(params)
    }

    /** unformat: ESC '[' and Reset printed with %d, then 'm'; the same for every colour. */
    function Unformat(): (r: string)
      ensures r == Sgr.ResetSequence
      ensures r == Sgr.Render([Reset])
    {
      Sgr.ResetIsRenderOfReset();
      Sgr.Introducer + Sgr.Itoa(Reset) + [Sgr.FinalByte]
    }

    /** wrap: the text unchanged when suppressed, otherwise between format and unformat. */
    function Wrap(s: string, globalNoColour: bool): (r: string)
      reads this
      ensures r == s <==> IsNoColourSet(globalNoColour)
      ensures !IsNoColourSet(globalNoColour) ==> |r| == |Format()| + |s| + |Sgr.ResetSequence|
    {
      if IsNoColourSet(globalNoColour) then s else Format() + s + Unformat()
    }

    /** Equals: same length, and every attribute of this one occurs in c2. */
    predicate Equals(c2: Colour)
      reads this, c2
      ensures Equals(c2) <==>
        |params| == |c2.params| && forall i :: 0 <= i < |params| ==> params[i] in c2.params
    {
      |params| == |c2.params| && AllExist(params, c2.params)
    }

    /**
     * What Fprint, Fprintf and Fprintln write, in order: setWriter's prefix
     * unless suppressed, the payload, then unsetWriter's reset unless
     * suppressed or the global flag is set.
     */
    function Emission(payload: string, globalNoColour: bool): (r: seq<string>)
      reads this
      ensures r != ResolvedEmission(payload, globalNoColour) <==>
        noColour == Some(false) && globalNoColour
      ensures r != ResolvedEmission(payload, globalNoColour) ==>
        r == ResolvedEmission(payload, globalNoColour)[..2]
    {
      (if IsNoColourSet(globalNoColour) then [] else [Format()])
      + [payload]
      + (if IsNoColourSet(globalNoColour) || globalNoColour then [] else [Unformat()])
    }

    /** The emission with suppression resolved once per call, for both writes. */
    function ResolvedEmission(payload: string, globalNoColour: bool): (r: seq<string>)
      reads this
      ensures |r| == 1 <==> IsNoColourSet(globalNoColour)
      ensures |r| == 1 || (|r| == 3 && r[0] == Format() && r[2] == Unformat())
      ensures r[|r| / 2] == payload
    {
      if IsNoColourSet(globalNoColour) then [payload] else [Format(), payload, Unformat()]
    }

    /** setWriter: writes the prefix unless suppressed; returns the receiver. */
    method SetWriter(w: Writer, globalNoColour: bool) returns (self: Colour)
      modifies w
      ensures self == this
      ensures w.log == old(w.log) + (if IsNoColourSet(globalNoColour) then [] else [Format()])
    {
      self := this;
      if IsNoColourSet(globalNoColour) {
        return;
      }
      var n := w.Write(Format());
    }

    /** unsetWriter: writes the reset unless suppressed, and also not when the global flag is set. */
    method UnsetWriter(w: Writer, globalNoColour: bool)
      modifies w
      ensures w.log == old(w.log) +
        (if IsNoColourSet(globalNoColour) || globalNoColour then [] else [Unformat()])
    {
      if IsNoColourSet(globalNoColour) {
        return;
      }
      if globalNoColour {
        return;
      }
      var n := w.Write(Unformat());
    }

    /**
     * Fprint (and Fprintf, Fprintln, which differ only in how the host
     * formats the payload): prefix, payload, deferred reset; the count
     * returned is that of the payload write alone.
     */
    method Fprint(w: Writer, payload: string, globalNoColour: bool) returns (n: nat)
      modifies w
      ensures n == |payload|
      ensures w.log == old(w.log) + Emission(payload, globalNoColour)
    {
      var self := SetWriter(w, globalNoColour);
      n := w.Write(payload);
      UnsetWriter(w, globalNoColour);
    }
  }

  /**
   * The package-level Unset: writes the reset sequence unless the global
   * flag is set. No colour, and so no local override, is consulted.
   */
  method Unset(out: Writer, globalNoColour: bool)
    modifies out
    ensures out.log == old(out.log) + (if globalNoColour then [] else [Sgr.ResetSequence])
  {
    if globalNoColour {
      return;
    }
    var reset := Sgr.Introducer + Sgr.Itoa(Reset) + [Sgr.FinalByte];
    assert Sgr.Itoa(Reset) == "0";
    assert reset == Sgr.ResetSequence;
    var n := out.Write(reset);
  }

  // -----------------------------------------------------------------------
  // The output gate
  // -----------------------------------------------------------------------

  /** A set override decides alone; without one the global flag decides. */
  lemma OverridePrecedence(c: Colour, globalNoColour: bool)
    ensures c.noColour == Some(true) ==> c.IsNoColourSet(globalNoColour)
    ensures c.noColour == Some(false) ==> !c.IsNoColourSet(globalNoColour)
    ensures c.noColour == None ==> (c.IsNoColourSet(globalNoColour) <==> globalNoColour)
  {
  }

  // -----------------------------------------------------------------------
  // Wrapping
  // -----------------------------------------------------------------------

  /** Suppressed wrapping is the identity, hence idempotent. */
  lemma WrapSuppressed(c: Colour, s: string, globalNoColour: bool)
    requires c.IsNoColourSet(globalNoColour)
    ensures c.Wrap(s, globalNoColour) == s
    ensures c.Wrap(c.Wrap(s, globalNoColour), globalNoColour) == c.Wrap(s, globalNoColour)
  {
  }

  /**
   * Unsuppressed wrapping splits into three parts: a prefix that reads
   * back as the colour's parameters, the text itself, and the reset
   * sequence, which does not depend on the parameters.
   */
  lemma WrapParts(c: Colour, s: string, globalNoColour: bool)
    requires !c.IsNoColourSet(globalNoColour)
    ensures var w, k := c.Wrap(s, globalNoColour), |c.Format()|;
      && |w| == k + |s| + |Sgr.ResetSequence|
      && Sgr.ParseSgr(w[..k]) == Some(c.params)
      && w[k..k + |s|] == s
      && w[k + |s|..] == Sgr.ResetSequence
  {
    var w, f := c.Wrap(s, globalNoColour), c.Format();
    assert w == f + s + Sgr.ResetSequence;
    assert w[..|f|] == f;
    assert w[|f|..|f| + |s|] == s;
    assert w[|f| + |s|..] == Sgr.ResetSequence;
  }

  /** For a fixed colour and flag, different texts wrap to different strings. */
  lemma WrapInjective(c: Colour, s: string, t: string, globalNoColour: bool)
    requires c.Wrap(s, globalNoColour) == c.Wrap(t, globalNoColour)
    ensures s == t
  {
    if !c.IsNoColourSet(globalNoColour) {
      WrapParts(c, s, globalNoColour);
      WrapParts(c, t, globalNoColour);
    }
  }

  /**
   * An enabled colour wraps even when the global flag suppresses colour;
   * a disabled one leaves the text alone even when the global flag allows it.
   */
  lemma OverrideDecidesWrap(c: Colour, s: string)
    ensures c.noColour == Some(false) ==> c.Wrap(s, true) == c.Format() + s + Sgr.ResetSequence
    ensures c.noColour == Some(true) ==> c.Wrap(s, false) == s
  {
  }

  /** Concrete wrappings of a colour without override while colour is on. */
  lemma WrapExamples(red: Colour, boldGreen: Colour)
    requires red.params == [FgRed] && red.noColour == None
    requires boldGreen.params == [Bold, FgGreen] && boldGreen.noColour == None
    ensures red.Wrap("Error", false) == "\U{1B}[31mError\U{1B}[0m"
    ensures boldGreen.Wrap("OK", false) == "\U{1B}[1;32mOK\U{1B}[0m"
    ensures red.Wrap("Error", true) == "Error" && boldGreen.Wrap("OK", true) == "OK"
  {
    Sgr.RenderExamples();
  }

  // -----------------------------------------------------------------------
  // Equality
  // -----------------------------------------------------------------------

  /** Every colour equals itself. */
  lemma EqualsReflexive(c: Colour)
    ensures c.Equals(c)
  {
  }

  /** Reordering the same attributes keeps colours equal. */
  lemma EqualsIgnoresOrder(c: Colour, d: Colour)
    requires multiset(c.params) == multiset(d.params)
    ensures c.Equals(d) && d.Equals(c)
  {
    assert |c.params| == |multiset(c.params)|;
    forall i | 0 <= i < |c.params|
      ensures c.params[i] in d.params
    {
      assert c.params[i] in multiset(c.params);
    }
    forall i | 0 <= i < |d.params|
      ensures d.params[i] in c.params
    {
      assert d.params[i] in multiset(d.params);
    }
  }

  /** Colours with parameter lists of different lengths are never equal. */
  lemma EqualsNeedsSameLength(c: Colour, d: Colour)
    requires |c.params| != |d.params|
    ensures !c.Equals(d)
  {
  }

  /**
   * Equals is a presence-and-length test, not multiset equality, and so not
   * symmetric: [1, 1] equals [1, 2], but [1, 2] does not equal [1, 1].
   */
  lemma EqualsNotSymmetric(c: Colour, d: Colour)
    requires c.params == [Bold, Bold] && d.params == [Bold, Faint]
    ensures c.Equals(d) && !d.Equals(c)
    ensures multiset(c.params) != multiset(d.params)
  {
    assert d.params[1] == Faint && Faint !in c.params;
    assert multiset(c.params)[Faint] == 0;
  }

  /** Equality examples: a reordering is equal, a repetition of different length is not. */
  lemma EqualsExamples(a: Colour, b: Colour, one: Colour, two: Colour)
    requires a.params == [FgCyan, Underline] && b.params == [Underline, FgCyan]
    requires one.params == [FgCyan] && two.params == [FgCyan, FgCyan]
    ensures a.Equals(b) && !one.Equals(two)
  {
  }

  // -----------------------------------------------------------------------
  // Emission order of the Fprint family
  // -----------------------------------------------------------------------

  /**
   * Whenever the local override does not enable a colour against the
   * global flag, what Fprint writes reads exactly as wrap of the payload.
   */
  lemma EmissionIsWrap(c: Colour, payload: string, globalNoColour: bool)
    requires !(c.noColour == Some(false) && globalNoColour)
    ensures Concat(c.Emission(payload, globalNoColour)) == c.Wrap(payload, globalNoColour)
  {
    var e := c.Emission(payload, globalNoColour);
    ConcatThree(c.Format(), payload, c.Unformat());
    ConcatOne(payload);
    if c.IsNoColourSet(globalNoColour) {
      assert e == [payload];
    } else {
      assert e == [c.Format(), payload, c.Unformat()];
    }
  }

  /**
   * A colour enabled by EnableColour while the global flag is set gets its
   * prefix but no reset: unsetWriter consults the global flag again.
   */
  lemma UnbalancedEmission(c: Colour, payload: string)
    requires c.noColour == Some(false)
    ensures c.Emission(payload, true) == [c.Format(), payload]
    ensures Concat(c.Emission(payload, true)) == c.Format() + payload
    ensures Concat(c.Emission(payload, true)) != c.Wrap(payload, true)
  {
    var e := c.Emission(payload, true);
    assert e == [c.Format(), payload];
    ConcatTwo(c.Format(), payload);
    assert |c.Wrap(payload, true)| == |c.Format()| + |payload| + |Sgr.ResetSequence|;
  }

  /** With suppression resolved once, what is written always reads as wrap. */
  lemma ResolvedEmissionIsWrap(c: Colour, payload: string, globalNoColour: bool)
    ensures Concat(c.ResolvedEmission(payload, globalNoColour)) == c.Wrap(payload, globalNoColour)
  {
    ConcatThree(c.Format(), payload, c.Unformat());
    ConcatOne(payload);
  }
}
