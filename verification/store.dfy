/** The day records as a map keyed by user and civil date, with the two
    handlers that touch it: the `message` handler (load, step, save) and the
    `/start` handler, which overwrites the day's record with an empty log.
    The database itself is outside the model. */
module Store {
  import opened Wrappers
  import opened Clock
  import opened ActivityLog
  import opened Commands
  import opened Replies
  import Engine

  /** One record per user per civil date (`YYYY-MM-DD`). */
  datatype Key = Key(user: int, date: string)

  type Store = map<Key, Log>

  function Lookup(store: Store, k: Key): Option<Log> {
    if k in store then Some(store[k]) else None
  }

  /** One message from user `k.user` on date `k.date`: only that record can
      change, and it is written only when the handler reaches `save`. */
  function Deliver(store: Store, k: Key, e: Event): (r: Store)
    ensures forall other :: other != k ==> Lookup(r, other) == Lookup(store, other)
    ensures Engine.Handle(Lookup(store, k), e.text, e.at).Ignored? ==> r == store
    ensures Engine.Handle(Lookup(store, k), e.text, e.at).Saved? ==>
      Lookup(r, k) == Some(Engine.Handle(Lookup(store, k), e.text, e.at).log)
  {
    match Engine.Handle(Lookup(store, k), e.text, e.at)
    case Ignored => store
    case Saved(log, _) => store[k := log]
  }

  /** `bot.onText(/\\/start/)`: the text contains `/start` somewhere. */
  predicate MentionsStart(text: string)
    ensures MentionsStart(text) ==> |text| >= 6
    decreases |text|
  {
    |text| >= 6 && (text[..6] == "/start" || MentionsStart(text[1..]))
  }

  /** `/start` anywhere in the text triggers the handler. */
  lemma {:induction false} MentionsStartAt(text: string, i: nat)
    requires i + 6 <= |text| && text[i..i + 6] == "/start"
    ensures MentionsStart(text)
    decreases i
  {
    if i > 0 {
      assert text[1..][i - 1..i + 5] == text[i..i + 6];
      MentionsStartAt(text[1..], i - 1);
    }
  }

  /** ... and only there: a triggering text holds `/start` at some offset. */
  lemma {:induction false} MentionsStartFound(text: string) returns (i: nat)
    requires MentionsStart(text)
    ensures i + 6 <= |text| && text[i..i + 6] == "/start"
    decreases |text|
  {
    if text[..6] == "/start" {
      i := 0;
    } else {
      var j := MentionsStartFound(text[1..]);
      i := j + 1;
      forall k | 0 <= k < 6
        ensures text[i + k] == "/start"[k]
      {
        assert text[1..][j..j + 6][k] == text[i + k];
      }
      assert text[i..i + 6] == "/start";
    }
  }

  /** The `/start` handler upserts the day's record with an empty activity
      list: whatever the user recorded earlier that day is discarded. */
  function Restart(store: Store, k: Key, text: Option<string>): (r: Store)
    ensures forall other :: other != k ==> Lookup(r, other) == Lookup(store, other)
    ensures text.Some? && MentionsStart(text.value) ==> Lookup(r, k) == Some([])
    ensures !(text.Some? && MentionsStart(text.value)) ==> r == store
  {
    if text.Some? && MentionsStart(text.value) then store[k := []] else store
  }

  /** A record that exists only ever holds a log with the invariant: every
      change to the store, by either handler, keeps it. */
  predicate AllWellFormed(store: Store) {
    forall k :: k in store ==> WellFormed(store[k])
  }

  lemma DeliverKeepsInvariant(store: Store, k: Key, e: Event)
    requires AllWellFormed(store)
    ensures AllWellFormed(Deliver(store, k, e))
  {
    Engine.HandlePreservesInvariant(Lookup(store, k), e.text, e.at);
  }

  lemma RestartKeepsInvariant(store: Store, k: Key, text: Option<string>)
    requires AllWellFormed(store)
    ensures AllWellFormed(Restart(store, k, text))
  {
  }

  /** The first message under a new date (after midnight, say) loads no
      record: it closes nothing, and the previous date's record, open entry
      and all, stays exactly as it was. */
  lemma NewDateStartsFresh(store: Store, earlier: Key, today: Key, e: Event)
    requires today != earlier && today !in store
    ensures Lookup(Deliver(store, today, e), earlier) == Lookup(store, earlier)
    ensures var o := Engine.Handle(None, e.text, e.at);
      o.Saved? ==> o.reply.previous.None? && Lookup(Deliver(store, today, e), today) == Some(o.log)
  {
  }

  /** The `/start` command text itself reaches the `message` handler too,
      which drops it before loading anything. */
  lemma StartTextIgnoredByMessageHandler(store: Store, k: Key, at: Moment)
    ensures Deliver(store, k, Event(Some("/start"), at)) == store
  {
  }
}
