/**
 * The chat bot of `send_message` (main.py:166-168): a message whose
 * lower-cased text contains `@squadbot` is answered by the bot with one of
 * five fixed replies.
 */
module SquadBot {
  import opened Strings

  const TriggerPhrase := "@squadbot"

  /**
   * The author recorded for bot messages. The source file holds the UTF-8
   * bytes of a robot emoji decoded as Windows-1252, so the name ends in the
   * four characters U+00F0 U+0178 U+00A4 U+2013.
   */
  const BotName := "SquadBot \U{F0}\U{178}\U{A4}\U{2013}"

  const Replies: seq<string> := ["Truth or Dare?", "Snacks?", "Selfie time!", "ETA?", "Music?"]

  /** `"@squadbot" in text.lower()` */
  predicate Triggers(text: string)
    ensures Triggers(text) <==> exists j :: OccursAt(ToLower(text), TriggerPhrase, j)
  {
    Contains(ToLower(text), TriggerPhrase)
  }

  /** The reply `random.choice` picks, the random draw given as `pick`. */
  function BotReply(pick: nat): (reply: string)
    ensures reply in Replies
  {
    Replies[pick % |Replies|]
  }

  /** The phrase written in any mix of cases, anywhere in the text, triggers the bot. */
  lemma AnyCaseTriggers(before: string, phrase: string, after: string)
    requires ToLower(phrase) == TriggerPhrase
    ensures Triggers(before + phrase + after)
  {
    ToLowerAppend(before + phrase, after);
    ToLowerAppend(before, phrase);
    var low := ToLower(before + phrase + after);
    assert low == ToLower(before) + TriggerPhrase + ToLower(after);
    assert low[|before|..|before| + |TriggerPhrase|] == TriggerPhrase;
    assert OccursAt(low, TriggerPhrase, |before|);
  }

  /** Case does not matter: text and its lower-cased form trigger alike. */
  lemma TriggerIgnoresCase(text: string)
    ensures Triggers(ToLower(text)) == Triggers(text)
  {
    ToLowerIdempotent(text);
  }

  /** Text without an `@` never triggers the bot. */
  lemma NoAtSignNoTrigger(text: string)
    requires '@' !in text
    ensures !Triggers(text)
  {
    var low := ToLower(text);
    forall j | 0 <= j < |low| ensures low[j] != '@' {
      assert text[j] in text;
    }
    forall j ensures !OccursAt(low, TriggerPhrase, j) {
      if 0 <= j && j + |TriggerPhrase| <= |low| {
        assert low[j..j + |TriggerPhrase|][0] == low[j];
      }
    }
  }
}
