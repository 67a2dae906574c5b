/**
 The inbound gate of `handle_message`: which messages reach the pipeline at
 all, and with what text.
 */
module Gate {
  import opened PyStrings
  import opened Whitespace

  /** The bot's handle, which a group message must mention. */
  const BotUsername: string := "@rrunning_coach_bot"

  /** The Telegram chat type the gate filters on. */
  const GroupChat: string := "group"

  datatype Routed = Dropped | Deliver(text: string)

  /** A group message is dropped unless it mentions the bot, and when it does
      every mention is removed and the rest stripped; any other chat type
      passes its text through untouched. */
  function Route(chatType: string, text: string): (r: Routed)
    ensures r.Dropped? <==> chatType == GroupChat && !Contains(text, BotUsername)
    ensures chatType != GroupChat ==> r == Deliver(text)
    ensures chatType == GroupChat && r.Deliver? ==> Trimmed(r.text)
  {
    if chatType == GroupChat then
      if Contains(text, BotUsername) then
        Deliver(Strip(RemoveAll(text, BotUsername)))
      else Dropped
    else Deliver(text)
  }

  /** The text a group message delivers is what surrounds its first mention,
      with the later mentions removed in turn, then stripped. */
  lemma GroupDeliveryViaFirstMention(text: string)
    requires Contains(text, BotUsername)
    ensures var i := Find(text, BotUsername);
            && 0 <= i
            && Route(GroupChat, text)
               == Deliver(Strip(text[..i] + RemoveAll(text[i + |BotUsername|..], BotUsername)))
  {
    RemoveAllViaFind(text, BotUsername);
  }

  /** A delivered group message has lost at least one full mention. */
  lemma GroupDeliveryShortens(text: string)
    requires Route(GroupChat, text).Deliver?
    ensures |Route(GroupChat, text).text| <= |text| - |BotUsername|
  {
    RemoveAllViaFind(text, BotUsername);
    var i := Find(text, BotUsername);
    var removed := RemoveAll(text, BotUsername);
    assert |removed| <= i + |text[i + |BotUsername|..]|;
    var p, q := StripSplit(removed);
  }

  /** A group message that is only the mention still reaches the pipeline,
      with empty text. */
  lemma MentionOnlyDeliversEmpty(w1: string, w2: string)
    requires AllSpace(w1) && AllSpace(w2)
    ensures Route(GroupChat, w1 + BotUsername + w2) == Deliver([])
  {
    var s := w1 + BotUsername + w2;
    assert !IsSpace('@');
    assert OccursAt(s, BotUsername, |w1|);
    assert forall k :: 0 <= k < |w1| ==> w1[k] != '@';
    assert forall k :: 0 <= k < |w2| ==> w2[k] != '@';
    assert s == w1 + (BotUsername + w2);
    forall i | 0 <= i < |w1|
      ensures !OccursAt(s, BotUsername, i)
    {
      if i + |BotUsername| <= |s| {
        assert s[i..i + |BotUsername|][0] == s[i] == w1[i];
      }
    }
    RemoveAllKeepsClearPrefix(s, BotUsername, |w1|);
    assert s[|w1|..] == BotUsername + w2;
    RemoveAllLeadingMatch(BotUsername, w2);
    RemoveAllWithoutHead(w2, BotUsername);
    assert s[..|w1|] == w1;
    AllSpaceConcat(w1, w2);
    assert Strip(w1 + w2) == [];
  }
}
