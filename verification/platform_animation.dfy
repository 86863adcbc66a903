/**
 * The rotating platform name in the hero heading (src/components/MessagingPlatformAnimation.tsx).
 * Every interval tick fades the current platform out; a timeout then advances to the next
 * platform and fades it in. The timers themselves are left out: the two callbacks are events.
 */
module PlatformAnimation {

  /** A platform shown in the heading: its name and the address of its icon. */
  datatype Platform = Platform(name: string, icon: string)

  /** `platforms`, in display order. */
  const Platforms: seq<Platform> := [
    Platform("Slack", "https://freepnglogo.com/images/all_img/1707837044slack-icon-png.png"),
    Platform("Discord", "https://freepnglogo.com/images/all_img/1708701355discord-icon-png.png"),
    Platform("Telegram", "https://freepnglogo.com/images/all_img/telegram-logo-fc05.png"),
    Platform("Teams", "https://freepnglogo.com/images/all_img/microsoft-teams-83e6.png")
  ]

  /** The index after one advance. */
  function Next(i: nat): (j: nat)
    requires i < |Platforms|
    ensures j < |Platforms|
    ensures j == if i == |Platforms| - 1 then 0 else i + 1
  {
    (i + 1) % |Platforms|
  }

  /** The index after `n` advances from `i`. */
  function AdvanceBy(i: nat, n: nat): (j: nat)
    requires i < |Platforms|
    ensures j < |Platforms|
  {
    if n == 0 then i else Next(AdvanceBy(i, n - 1))
  }

  /** `n` advances move the index `n` places forward around the table. */
  lemma {:induction false} AdvanceByIsRotation(i: nat, n: nat)
    requires i < |Platforms|
    ensures AdvanceBy(i, n) == (i + n) % |Platforms|
  {
    if n > 0 {
      AdvanceByIsRotation(i, n - 1);
    }
  }

  /** Four advances return to the starting platform. */
  lemma FullCycle(i: nat)
    requires i < |Platforms|
    ensures AdvanceBy(i, |Platforms|) == i
  {
    AdvanceByIsRotation(i, |Platforms|);
  }

  /** From the start the heading shows Slack, Discord, Telegram, Teams, then Slack again. */
  lemma DisplayOrder()
    ensures Platforms[AdvanceBy(0, 0)].name == "Slack"
    ensures Platforms[AdvanceBy(0, 1)].name == "Discord"
    ensures Platforms[AdvanceBy(0, 2)].name == "Telegram"
    ensures Platforms[AdvanceBy(0, 3)].name == "Teams"
    ensures Platforms[AdvanceBy(0, 4)].name == "Slack"
  {
    AdvanceByIsRotation(0, 2);
    AdvanceByIsRotation(0, 3);
    AdvanceByIsRotation(0, 4);
  }

  /** The component's state: which platform is current and whether it is faded in. */
  class Carousel {
    var currentIndex: nat
    var isVisible: bool

    /** The current index always names an entry of the table. */
    ghost predicate Valid()
      reads this
    {
      currentIndex < |Platforms|
    }

    /** The initial state: the first platform, visible. */
    constructor ()
      ensures Valid()
      ensures currentIndex == 0 && isVisible
    {
      currentIndex, isVisible := 0, true;
    }

    /** The platform the heading renders: its icon, its alt text and its name. */
    function Shown(): (p: Platform)
      reads this
      requires Valid()
      ensures p in Platforms
    {
      Platforms[currentIndex]
    }

    /** The interval callback: fade the current platform out. */
    method FadeOut()
      requires Valid()
      modifies this`isVisible
      ensures Valid()
      ensures !isVisible
      ensures currentIndex == old(currentIndex)
    {
      isVisible := false;
    }

    /** The timeout callback: move to the next platform, wrapping around, and fade it in. */
    method Advance()
      requires Valid()
      modifies this
      ensures Valid()
      ensures currentIndex == (old(currentIndex) + 1) % |Platforms|
      ensures currentIndex == Next(old(currentIndex))
      ensures isVisible
    {
      currentIndex := Next(currentIndex);
      isVisible := true;
    }
  }

  /** Four fade-out/advance rounds bring the heading back to the platform it started on. */
  method FourRounds(c: Carousel)
    requires c.Valid()
    modifies c
    ensures c.Valid() && c.currentIndex == old(c.currentIndex) && c.isVisible
  {
    ghost var start := c.currentIndex;
    c.FadeOut(); c.Advance();
    c.FadeOut(); c.Advance();
    c.FadeOut(); c.Advance();
    c.FadeOut(); c.Advance();
    assert c.currentIndex == AdvanceBy(start, 4);
    FullCycle(start);
  }
}
