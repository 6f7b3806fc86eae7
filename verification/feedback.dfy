/** The FAQ tab's "Was this helpful?" flag. The session keeps two keys,
    `feedback_given` and `feedback_message`; each run of the page initialises
    the flag when it is absent, offers Yes/No buttons while it is false, and
    once it is true shows the stored message instead. The flag is one per
    session, shared by every FAQ question. */
module Feedback {
  import opened Options

  const PositiveMessage: string := "Thanks for your positive feedback! We're glad this was helpful."
  const NegativeMessage: string := "Thanks for your feedback. We'll work on improving our answers."

  /** The two session-state keys; `None` is a key that was never set. */
  datatype Session = Session(feedbackGiven: Option<bool>, feedbackMessage: Option<string>)

  /** A new session: neither key is set. */
  const FreshSession: Session := Session(None, None)

  /** The button that reports a click on this run of the page, if any. */
  datatype Click = Idle | ThumbsUp | ThumbsDown

  /** What the run shows below the answer: nothing, the stored thank-you
      message, or the failure of reading a message key that was never set. */
  datatype Notice = Silent | Thanks(message: string) | MissingMessage

  datatype Screen = Screen(buttonsShown: bool, notice: Notice)

  /** The flag has been set to true. */
  predicate Given(s: Session)
  {
    s.feedbackGiven == Some(true)
  }

  /** The message a button stores. */
  function MessageFor(c: Click): (m: string)
    requires c != Idle
  {
    if c == ThumbsUp then PositiveMessage else NegativeMessage
  }

  /** Sets the flag to false only when the key is absent. */
  function Initialize(s: Session): (s': Session)
  {
    if s.feedbackGiven.None? then s.(feedbackGiven := Some(false)) else s
  }

  /** One run of the feedback block: the session afterwards and what was shown. */
  function Render(s: Session, click: Click): (r: (Session, Screen))
    // the flag is only ever initialised to false when absent; an existing value is kept
    ensures !Given(s) && click == Idle ==>
      r.0 == s.(feedbackGiven := Some(false)) && r.1 == Screen(true, Silent)
    // either button sets the flag and stores its own message, and the message shows at once
    ensures !Given(s) && click != Idle ==>
      r.0 == Session(Some(true), Some(MessageFor(click))) &&
      r.1 == Screen(true, Thanks(MessageFor(click)))
    // once given: no buttons, nothing changes, the stored message is shown
    ensures Given(s) ==> r.0 == s && !r.1.buttonsShown
    ensures Given(s) && s.feedbackMessage.Some? ==> r.1.notice == Thanks(s.feedbackMessage.value)
    ensures Given(r.0) <==> Given(s) || click != Idle
  {
    var s1 := Initialize(s);
    var shown := !s1.feedbackGiven.value;
    var s2 :=
      if !shown then s1
      else match click
        case Idle => s1
        case ThumbsUp => s1.(feedbackGiven := Some(true), feedbackMessage := Some(PositiveMessage))
        case ThumbsDown => s1.(feedbackGiven := Some(true), feedbackMessage := Some(NegativeMessage));
    var notice :=
      if !s2.feedbackGiven.value then Silent
      else match s2.feedbackMessage
        case Some(m) => Thanks(m)
        case None => MissingMessage;
    (s2, Screen(shown, notice))
  }

  /** The session after a sequence of runs, one click report per run. */
  function Run(s: Session, clicks: seq<Click>): (s': Session)
    decreases |clicks|
  {
    if |clicks| == 0 then s else Run(Render(s, clicks[0]).0, clicks[1..])
  }

  /** A session whose flag, when true, comes with a stored message. */
  predicate Consistent(s: Session)
  {
    Given(s) ==> s.feedbackMessage.Some?
  }

  /** Rendering keeps a session consistent, and a consistent session never
      fails to find its message. */
  lemma RenderConsistent(s: Session, click: Click)
    requires Consistent(s)
    ensures Consistent(Render(s, click).0)
    ensures Render(s, click).1.notice != MissingMessage
  {
  }

  /** Once true, the flag is never reset: any number of further runs leave
      the session as it was. */
  lemma {:induction false} NeverReset(s: Session, clicks: seq<Click>)
    requires Given(s)
    ensures Run(s, clicks) == s
    decreases |clicks|
  {
    if |clicks| > 0 {
      NeverReset(Render(s, clicks[0]).0, clicks[1..]);
    }
  }

  /** Every session reached from a consistent one is consistent, so no
      later run fails to show its message. */
  lemma {:induction false} ReachableConsistent(s: Session, clicks: seq<Click>)
    requires Consistent(s)
    ensures Consistent(Run(s, clicks))
    ensures forall c :: Render(Run(s, clicks), c).1.notice != MissingMessage
    decreases |clicks|
  {
    if |clicks| > 0 {
      RenderConsistent(s, clicks[0]);
      ReachableConsistent(Render(s, clicks[0]).0, clicks[1..]);
    } else {
      forall c {
        RenderConsistent(s, c);
      }
    }
  }

  /** The first click decides: starting with the flag not yet true, after a
      run of idle reports and then a click, the flag is true and holds that
      click's message for good. */
  lemma {:induction false} FirstClickWins(s: Session, clicks: seq<Click>, k: int)
    requires !Given(s)
    requires 0 <= k < |clicks| && clicks[k] != Idle
    requires forall j :: 0 <= j < k ==> clicks[j] == Idle
    ensures Run(s, clicks) == Session(Some(true), Some(MessageFor(clicks[k])))
    decreases k
  {
    var s' := Render(s, clicks[0]).0;
    if k == 0 {
      NeverReset(s', clicks[1..]);
    } else {
      FirstClickWins(s', clicks[1..], k - 1);
    }
  }

  /** A fresh session is consistent, so no sequence of runs from it ever
      fails to show its message. */
  lemma FreshRunsConsistent(clicks: seq<Click>)
    ensures Consistent(Run(FreshSession, clicks))
    ensures forall c :: Render(Run(FreshSession, clicks), c).1.notice != MissingMessage
  {
    ReachableConsistent(FreshSession, clicks);
  }
}
