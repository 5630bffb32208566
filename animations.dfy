/** The keyword classifier of cHat/src/utils/messageAnimations.js (`checkMessageAnimation`):
    a message that mentions a keyword of one of four themes, in any letter case, earns that
    theme's particle animation, the first theme in a fixed order winning. */
module Animations {
  import opened Common

  datatype Theme = Crackers | Snow | Hearts | Stars

  /** The animation the client plays: its theme, how long it runs in milliseconds, how
      many particles it shows and their colours. */
  datatype Animation = Animation(theme: Theme, duration: nat, particleCount: nat, colors: seq<string>)

  /** The themes in the order the matcher checks them. */
  const Order: seq<Theme> := [Crackers, Snow, Hearts, Stars]

  function Keywords(t: Theme): seq<string> {
    match t
    case Crackers => ["congrats", "congratulations", "celebrate", "cheers"]
    case Snow => ["snow", "winter", "christmas"]
    case Hearts => ["love", "heart"]
    case Stars => ["star", "amazing", "awesome"]
  }

  /** The fixed configuration of each theme. */
  function Config(t: Theme): (a: Animation)
    ensures a.theme == t
    ensures t == Crackers ==> a.duration == 1500 && a.particleCount == 25
    ensures t == Snow ==> a.duration == 2000 && a.particleCount == 20
    ensures t == Hearts ==> a.duration == 1500 && a.particleCount == 15
    ensures t == Stars ==> a.duration == 1800 && a.particleCount == 20
  {
    match t
    case Crackers => Animation(Crackers, 1500, 25, ["#ff6b6b", "#4ecdc4", "#45b7d1", "#f9ca24"])
    case Snow => Animation(Snow, 2000, 20, ["#ffffff", "#e0e7ff"])
    case Hearts => Animation(Hearts, 1500, 15, ["#ff6b6b", "#ff8c9e"])
    case Stars => Animation(Stars, 1800, 20, ["#f9ca24", "#f0932b"])
  }

  /** The lower-cased text mentions one of the theme's keywords. */
  predicate Mentions(lowered: string, t: Theme) {
    exists w :: w in Keywords(t) && Contains(lowered, w)
  }

  /** The first theme, in the order they are checked, whose keywords the lower-cased text mentions. */
  function FirstTheme(lowered: string): (r: Option<Theme>)
    ensures r.Some? <==> exists t :: t in Order && Mentions(lowered, t)
    ensures r.Some? ==> Mentions(lowered, r.value)
                        && forall k :: 0 <= k < |Order| && Order[k] == r.value ==>
                             forall j :: 0 <= j < k ==> !Mentions(lowered, Order[j])
  {
    if Mentions(lowered, Crackers) then Some(Crackers)
    else if Mentions(lowered, Snow) then Some(Snow)
    else if Mentions(lowered, Hearts) then Some(Hearts)
    else if Mentions(lowered, Stars) then Some(Stars)
    else None
  }

  /** `checkMessageAnimation`: no animation for a missing or empty message, otherwise the
      configuration of the first theme its lower-cased text mentions, if any. */
  function CheckMessageAnimation(message: Option<string>): (r: Option<Animation>)
    ensures message.None? || message == Some("") ==> r.None?
    ensures r.Some? <==> message.Some? && message.value != "" && exists t :: t in Order && Mentions(Lower(message.value), t)
    ensures r.Some? ==> r.value == Config(FirstTheme(Lower(message.value)).value)
  {
    if message.None? || message.value == "" then None
    else match FirstTheme(Lower(message.value))
      case None => None
      case Some(t) => Some(Config(t))
  }

  /** Letter case does not matter: a message and its lower-cased form earn the same
      animation. */
  lemma CaseInsensitive(s: string)
    ensures CheckMessageAnimation(Some(Lower(s))) == CheckMessageAnimation(Some(s))
  {
    LowerIdempotent(s);
  }

  /** A keyword is found anywhere in the text, as part of a longer word too. */
  lemma KeywordInsideWord(before: string, w: string, after: string, t: Theme)
    requires w in Keywords(t)
    ensures Mentions(Lower(before) + w + Lower(after), t)
  {
    var s := Lower(before) + w + Lower(after);
    assert s[|before|..|before| + |w|] == w;
    assert OccursAt(s, w, |before|);
  }

  /** A message that mentions a celebration keyword gets the crackers animation whatever
      else it mentions: "congrats, you are a star" is not a stars message. */
  lemma FirstThemeWins(s: string, w: string)
    requires w in Keywords(Crackers) && Contains(Lower(s), w)
    ensures CheckMessageAnimation(Some(s)) == Some(Config(Crackers))
  {
    assert Mentions(Lower(s), Crackers);
  }

  /** A message mentioning no keyword of any theme, in any letter case, earns no animation. */
  lemma NoKeywordNoAnimation(s: string)
    requires forall t, w :: t in Order && w in Keywords(t) ==> !Contains(Lower(s), w)
    ensures CheckMessageAnimation(Some(s)) == None
  {
  }

  /** "ok" is such a message: every keyword is longer than it. */
  lemma ShortMessageNoAnimation()
    ensures CheckMessageAnimation(Some("ok")) == None
  {
    var lowered := Lower("ok");
    assert lowered == "ok";
    forall t, w | t in Order && w in Keywords(t) ensures !Contains(lowered, w) {
      assert |w| > 2;
    }
    NoKeywordNoAnimation("ok");
  }
}
