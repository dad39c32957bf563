/**
 * The attribute registry: one integer per SGR parameter, grouped in the
 * disjoint ranges 0-9, 30-37, 40-47, 90-97 and 100-107.
 */
module Attributes {

  /** A single SGR parameter. Any integer is accepted; the names below are the registry. */
  type Attribute = int

  // Base attributes
  const Reset: Attribute := 0
  const Bold: Attribute := 1
  const Faint: Attribute := 2
  const Italic: Attribute := 3
  const Underline: Attribute := 4
  const BlinkSlow: Attribute := 5
  const BlinkRapid: Attribute := 6
  const ReverseVideo: Attribute := 7
  const Concealed: Attribute := 8
  const CrossedOut: Attribute := 9

  // Foreground text colours
  const FgBlack: Attribute := 30
  const FgRed: Attribute := 31
  const FgGreen: Attribute := 32
  const FgYellow: Attribute := 33
  const FgBlue: Attribute := 34
  const FgMagenta: Attribute := 35
  const FgCyan: Attribute := 36
  const FgWhite: Attribute := 37

  // Foreground high-intensity text colours
  const FgHiBlack: Attribute := 90
  const FgHiRed: Attribute := 91
  const FgHiGreen: Attribute := 92
  const FgHiYellow: Attribute := 93
  const FgHiBlue: Attribute := 94
  const FgHiMagenta: Attribute := 95
  const FgHiCyan: Attribute := 96
  const FgHiWhite: Attribute := 97

  // Background text colours
  const BgBlack: Attribute := 40
  const BgRed: Attribute := 41
  const BgGreen: Attribute := 42
  const BgYellow: Attribute := 43
  const BgBlue: Attribute := 44
  const BgMagenta: Attribute := 45
  const BgCyan: Attribute := 46
  const BgWhite: Attribute := 47

  // Background high-intensity text colours
  const BgHiBlack: Attribute := 100
  const BgHiRed: Attribute := 101
  const BgHiGreen: Attribute := 102
  const BgHiYellow: Attribute := 103
  const BgHiBlue: Attribute := 104
  const BgHiMagenta: Attribute := 105
  const BgHiCyan: Attribute := 106
  const BgHiWhite: Attribute := 107

  /** The five groups of the registry, each in declaration order. */
  const BaseAttributes: seq<Attribute> :=
    [Reset, Bold, Faint, Italic, Underline, BlinkSlow, BlinkRapid, ReverseVideo, Concealed, CrossedOut]
  const Foreground: seq<Attribute> :=
    [FgBlack, FgRed, FgGreen, FgYellow, FgBlue, FgMagenta, FgCyan, FgWhite]
  const ForegroundHi: seq<Attribute> :=
    [FgHiBlack, FgHiRed, FgHiGreen, FgHiYellow, FgHiBlue, FgHiMagenta, FgHiCyan, FgHiWhite]
  const Background: seq<Attribute> :=
    [BgBlack, BgRed, BgGreen, BgYellow, BgBlue, BgMagenta, BgCyan, BgWhite]
  const BackgroundHi: seq<Attribute> :=
    [BgHiBlack, BgHiRed, BgHiGreen, BgHiYellow, BgHiBlue, BgHiMagenta, BgHiCyan, BgHiWhite]

  /** Each group is the run of consecutive codes starting at its first member. */
  predicate Consecutive(group: seq<Attribute>, first: Attribute) {
    forall i :: 0 <= i < |group| ==> group[i] == first + i
  }

  /**
   * The registry as declared: every group is a run of consecutive codes
   * (iota + offset), the runs are 0-9, 30-37, 90-97, 40-47 and 100-107, and
   * so no two groups share a code. Reset is 0.
   */
  lemma RegistryLayout()
    ensures Reset == 0
    ensures |BaseAttributes| == 10 && Consecutive(BaseAttributes, 0)
    ensures |Foreground| == 8 && Consecutive(Foreground, 30)
    ensures |ForegroundHi| == 8 && Consecutive(ForegroundHi, 90)
    ensures |Background| == 8 && Consecutive(Background, 40)
    ensures |BackgroundHi| == 8 && Consecutive(BackgroundHi, 100)
  {
  }

  /** Every member of each group lies in that group's range. */
  lemma GroupRanges()
    ensures forall a :: a in BaseAttributes ==> 0 <= a <= 9
    ensures forall a :: a in Foreground ==> 30 <= a <= 37
    ensures forall a :: a in Background ==> 40 <= a <= 47
    ensures forall a :: a in ForegroundHi ==> 90 <= a <= 97
    ensures forall a :: a in BackgroundHi ==> 100 <= a <= 107
  {
  }

  /** No code belongs to two groups. */
  lemma GroupsDisjoint()
    ensures forall a :: a in BaseAttributes ==>
      a !in Foreground && a !in Background && a !in ForegroundHi && a !in BackgroundHi
    ensures forall a :: a in Foreground ==>
      a !in Background && a !in ForegroundHi && a !in BackgroundHi
    ensures forall a :: a in Background ==> a !in ForegroundHi && a !in BackgroundHi
    ensures forall a :: a in ForegroundHi ==> a !in BackgroundHi
  {
    GroupRanges();
  }
}
