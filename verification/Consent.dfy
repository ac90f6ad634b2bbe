/**
 The daemon's consent set under concurrent connections (`handle_connection` in crates/core/src/net/recv.rs): one
 handler a connection, each step holding the lock at most once, interleaved in any way.
 */
module Consent {
  type Id = nat

  datatype Stage =
    | Asked                      // the request has been read
    | AutoRead(auto: bool)       // the config has been read
    | Prompting                  // waiting for the user
    | Accepted                   // `is_accepted`, id not inserted yet
    | Parsing                    // id inserted, `accept` running
    | Texting                    // text delivered, waiting for the connection to close
    | Processing                 // `process_chunks` running
    | Over

  datatype Handler = Handler(id: Id, stage: Stage)

  datatype Daemon = Daemon(handlers: seq<Handler>, consented: set<Id>)

  datatype Outcome = File | Text | Error

  datatype Finish = Complete | Failed | UserCancelled

  datatype Label =
    | Connect(id: Id)
    | ReadConfig(h: nat, auto: bool)
    | Look(h: nat)
    | Answer(h: nat, yes: bool)
    | Insert(h: nat)
    | Accept(h: nat, outcome: Outcome)
    | TextClosed(h: nat)
    | ChunksEnd(h: nat, finish: Finish)

  predicate At(d: Daemon, h: nat, stage: Stage) {
    h < |d.handlers| && d.handlers[h].stage == stage
  }

  predicate Enabled(d: Daemon, l: Label) {
    match l
    case Connect(_) => true
    case ReadConfig(h, _) => At(d, h, Asked)
    case Look(h) => h < |d.handlers| && d.handlers[h].stage.AutoRead?
    case Answer(h, _) => At(d, h, Prompting)
    case Insert(h) => At(d, h, Accepted)
    case Accept(h, _) => At(d, h, Parsing)
    case TextClosed(h) => At(d, h, Texting)
    case ChunksEnd(h, _) => At(d, h, Processing)
  }

  function Move(d: Daemon, h: nat, stage: Stage): Daemon
    requires h < |d.handlers|
  {
    d.(handlers := d.handlers[h := d.handlers[h].(stage := stage)])
  }

  function Forget(d: Daemon, h: nat): Daemon
    requires h < |d.handlers|
  {
    Move(d, h, Over).(consented := d.consented - {d.handlers[h].id})
  }

  function Apply(d: Daemon, l: Label): Daemon
    requires Enabled(d, l)
  {
    match l
    case Connect(id) => d.(handlers := d.handlers + [Handler(id, Asked)])
    case ReadConfig(h, auto) => Move(d, h, AutoRead(auto))
    case Look(h) =>
      var id := d.handlers[h].id;
      Move(d, h, if d.handlers[h].stage.auto || id in d.consented then Accepted else Prompting)
    case Answer(h, yes) => Move(d, h, if yes then Accepted else Over)
    case Insert(h) => Move(d, h, Parsing).(consented := d.consented + {d.handlers[h].id})
    case Accept(h, outcome) =>
      (match outcome
       case File => Move(d, h, Processing)
       case Text => Move(d, h, Texting)
       case Error => Forget(d, h))
    case TextClosed(h) => Forget(d, h)
    case ChunksEnd(h, finish) => if finish == Complete then Forget(d, h) else Move(d, h, Over)
  }

  ghost predicate Runs(d: Daemon, labels: seq<Label>, last: Daemon)
    decreases |labels|
  {
    if labels == [] then last == d
    else Enabled(d, labels[0]) && Runs(Apply(d, labels[0]), labels[1..], last)
  }

  const FRESH: Daemon := Daemon([], {})

  predicate PastConsent(stage: Stage) {
    stage in {Accepted, Parsing, Texting, Processing}
  }

  /** The ids the connections of a run came with, in order: handler h is the h-th connection. */
  ghost function Connected(labels: seq<Label>): seq<Id> {
    if labels == [] then []
    else
      var last := labels[|labels| - 1];
      Connected(labels[..|labels| - 1]) + (if last.Connect? then [last.id] else [])
  }

  /** The k-th step accepts the id: the user's yes, or the look of a handler that has read that all are accepted. */
  ghost predicate Grants(labels: seq<Label>, id: Id, k: nat) {
    && k < |labels|
    && match labels[k]
       case Answer(h, yes) => yes && h < |Connected(labels)| && Connected(labels)[h] == id
       case Look(h) =>
         && h < |Connected(labels)| && Connected(labels)[h] == id
         && ReadConfig(h, true) in labels[..k]
       case _ => false
  }

  ghost predicate Granted(labels: seq<Label>, id: Id) {
    exists k: nat :: Grants(labels, id, k)
  }

  /** The handler is past consent for a reason, and its stage is one its own steps have led to. */
  ghost predicate HandlerInv(labels: seq<Label>, d: Daemon, h: nat)
    requires h < |d.handlers|
  {
    var stage := d.handlers[h].stage;
    && (PastConsent(stage) ==> Granted(labels, d.handlers[h].id))
    && (stage == AutoRead(true) ==> ReadConfig(h, true) in labels)
    && (stage == Accepted ==> Answer(h, true) in labels || Look(h) in labels)
    && (stage == Parsing ==> Insert(h) in labels)
    && (stage == Texting ==> Accept(h, Text) in labels)
    && (stage == Processing ==> Accept(h, File) in labels)
  }

  predicate InUse(stage: Stage) {
    stage in {Parsing, Texting, Processing}
  }

  /** A connection of the id is still being received, or ended in the middle of its chunks. */
  ghost predicate Open(labels: seq<Label>, d: Daemon, id: Id) {
    || (exists h :: 0 <= h < |d.handlers| && d.handlers[h].id == id && InUse(d.handlers[h].stage))
    || BrokenOff(labels, id)
  }

  ghost predicate BrokenOff(labels: seq<Label>, id: Id) {
    exists k :: 0 <= k < |labels| && EndedBadly(labels, labels[k], id)
  }

  ghost predicate EndedBadly(labels: seq<Label>, l: Label, id: Id) {
    l.ChunksEnd? && l.finish != Complete && l.h < |Connected(labels)| && Connected(labels)[l.h] == id
  }

  ghost predicate Inv(labels: seq<Label>, d: Daemon) {
    && |d.handlers| == |Connected(labels)|
    && (forall h :: 0 <= h < |d.handlers| ==> d.handlers[h].id == Connected(labels)[h] && HandlerInv(labels, d, h))
    && forall id :: id in d.consented ==> Granted(labels, id) && Open(labels, d, id)
  }

  lemma {:induction false} ConnectedPrefix(labels: seq<Label>, l: Label)
    ensures Connected(labels + [l]) == Connected(labels) + (if l.Connect? then [l.id] else [])
  {
    assert (labels + [l])[..|labels|] == labels;
  }

  lemma {:induction false} GrantedStill(labels: seq<Label>, l: Label, id: Id)
    requires Granted(labels, id)
    ensures Granted(labels + [l], id)
  {
    ConnectedPrefix(labels, l);
    var k: nat :| Grants(labels, id, k);
    hide Connected;
    assert (labels + [l])[..k] == labels[..k];
    assert Grants(labels + [l], id, k);
  }

  /** The step itself grants the id of the handler it takes past the prompt. */
  lemma {:induction false} GrantedNow(labels: seq<Label>, d: Daemon, l: Label, h: nat)
    requires Inv(labels, d) && Enabled(d, l) && h < |d.handlers|
    requires l == Answer(h, true) || (l == Look(h) && d.handlers[h].stage == AutoRead(true))
    ensures Granted(labels + [l], d.handlers[h].id)
  {
    ConnectedPrefix(labels, l);
    hide Connected;
    assert HandlerInv(labels, d, h);
    assert (labels + [l])[..|labels|] == labels;
    assert Grants(labels + [l], d.handlers[h].id, |labels|);
  }

  lemma {:induction false} HandlerKeeps(labels: seq<Label>, d: Daemon, l: Label, h: nat)
    requires Inv(labels, d) && Enabled(d, l) && h < |Apply(d, l).handlers|
    ensures HandlerInv(labels + [l], Apply(d, l), h)
  {
    var r := Apply(d, l);
    if h < |d.handlers| {
      var id := d.handlers[h].id;
      assert r.handlers[h].id == id && HandlerInv(labels, d, h);
      assert id in d.consented ==> Granted(labels, id);
      hide Inv, Granted, Connected, Open;
      if Granted(labels, id) { GrantedStill(labels, l, id); }
      if l == Answer(h, true) || (l == Look(h) && d.handlers[h].stage == AutoRead(true)) {
        GrantedNow(labels, d, l, h);
      }
    }
  }

  lemma {:induction false} OpenStill(labels: seq<Label>, d: Daemon, l: Label, id: Id)
    requires Inv(labels, d) && Enabled(d, l) && id in Apply(d, l).consented
    ensures Open(labels + [l], Apply(d, l), id)
  {
    var r := Apply(d, l);
    ConnectedPrefix(labels, l);
    hide Connected, Granted, HandlerInv;
    if id !in d.consented {
      assert l.Insert? && r.handlers[l.h].id == id && r.handlers[l.h].stage == Parsing;
    } else if k :| 0 <= k < |labels| && EndedBadly(labels, labels[k], id) {
      assert (labels + [l])[k] == labels[k] && EndedBadly(labels + [l], labels[k], id);
    } else {
      var h :| 0 <= h < |d.handlers| && d.handlers[h].id == id && InUse(d.handlers[h].stage);
      if l.ChunksEnd? && l.h == h {
        assert (labels + [l])[|labels|] == l && EndedBadly(labels + [l], l, id);
      } else {
        assert r.handlers[h].id == id && InUse(r.handlers[h].stage);
      }
    }
  }

  lemma {:induction false} StepKeeps(labels: seq<Label>, d: Daemon, l: Label)
    requires Inv(labels, d) && Enabled(d, l)
    ensures Inv(labels + [l], Apply(d, l))
  {
    var r := Apply(d, l);
    ConnectedPrefix(labels, l);
    hide Connected, Granted;
    forall h | 0 <= h < |r.handlers|
      ensures r.handlers[h].id == Connected(labels + [l])[h] && HandlerInv(labels + [l], r, h)
    {
      HandlerKeeps(labels, d, l, h);
    }
    forall id | id in r.consented
      ensures Granted(labels + [l], id) && Open(labels + [l], r, id)
    {
      if id in d.consented {
        GrantedStill(labels, l, id);
      } else {
        assert l.Insert? && HandlerInv(labels, d, l.h);
        GrantedStill(labels, l, id);
      }
      OpenStill(labels, d, l, id);
    }
  }

  lemma {:induction false} RunKeeps(done: seq<Label>, d: Daemon, labels: seq<Label>, last: Daemon)
    requires Inv(done, d) && Runs(d, labels, last)
    ensures Inv(done + labels, last)
    decreases |labels|
  {
    hide Inv, Apply, Enabled;
    if labels == [] {
      assert done + labels == done;
    } else {
      StepKeeps(done, d, labels[0]);
      RunKeeps(done + [labels[0]], Apply(d, labels[0]), labels[1..], last);
      assert done + [labels[0]] + labels[1..] == done + labels;
    }
  }

  /**
   Consent safety: on every interleaving, an id is in the set, and a connection is past the prompt, only if some step
   before was the user's yes to a connection of that id, or the look of one that had read that everything is accepted.
   */
  lemma {:induction false} ConsentBacked(labels: seq<Label>, last: Daemon)
    requires Runs(FRESH, labels, last)
    ensures |last.handlers| == |Connected(labels)|
    ensures forall h :: 0 <= h < |last.handlers| ==> last.handlers[h].id == Connected(labels)[h]
    ensures forall id :: id in last.consented ==> exists k: nat :: Grants(labels, id, k)
    ensures forall h :: 0 <= h < |last.handlers| && PastConsent(last.handlers[h].stage) ==>
              exists k: nat :: Grants(labels, Connected(labels)[h], k)
  {
    RunKeeps([], FRESH, labels, last);
    assert [] + labels == labels;
    hide Connected, Grants;
    forall h | 0 <= h < |last.handlers|
      ensures PastConsent(last.handlers[h].stage) ==> Granted(labels, Connected(labels)[h])
    {
      assert HandlerInv(labels, last, h);
    }
  }

  /** No step comes before the one that leads to it: each connection goes through its stages in order. */
  lemma {:induction false} InOrder(labels: seq<Label>, last: Daemon, h: nat)
    requires Runs(FRESH, labels, last) && h < |last.handlers|
    ensures Enabled(last, Insert(h)) ==> Answer(h, true) in labels || Look(h) in labels
    ensures (exists outcome :: Enabled(last, Accept(h, outcome))) ==> Insert(h) in labels
    ensures Enabled(last, TextClosed(h)) ==> Accept(h, Text) in labels
    ensures (exists finish :: Enabled(last, ChunksEnd(h, finish))) ==> Accept(h, File) in labels
  {
    RunKeeps([], FRESH, labels, last);
    assert [] + labels == labels;
    assert HandlerInv(labels, last, h);
    hide Connected, Granted, Open;
  }

  /** Consent does not outlive its use: with all connections over, only ids broken off in their chunks stay. */
  lemma {:induction false} OnlyBrokenOffStay(labels: seq<Label>, last: Daemon, id: Id)
    requires Runs(FRESH, labels, last) && id in last.consented
    requires forall h :: 0 <= h < |last.handlers| ==> last.handlers[h].stage == Over
    ensures exists k :: 0 <= k < |labels| && EndedBadly(labels, labels[k], id)
  {
    RunKeeps([], FRESH, labels, last);
    assert [] + labels == labels;
    hide Connected, EndedBadly, Granted;
    assert Open(labels, last, id);
  }

  /** The prompt is skipped if and only if all are accepted or the id has been: then, and after a yes, it goes on. */
  lemma WhenAsked(d: Daemon, h: nat, yes: bool)
    requires h < |d.handlers|
    ensures Enabled(d, Look(h)) ==>
              && (At(Apply(d, Look(h)), h, Prompting) <==>
                    d.handlers[h].stage == AutoRead(false) && d.handlers[h].id !in d.consented)
              && (At(Apply(d, Look(h)), h, Accepted) <==> !At(Apply(d, Look(h)), h, Prompting))
    ensures Enabled(d, Answer(h, yes)) ==> At(Apply(d, Answer(h, yes)), h, if yes then Accepted else Over)
    ensures Enabled(d, Insert(h)) <==> At(d, h, Accepted)
  {
  }

  lemma {:induction false} OverStays(d: Daemon, labels: seq<Label>, last: Daemon, h: nat)
    requires Runs(d, labels, last) && At(d, h, Over)
    ensures At(last, h, Over) && forall k :: 0 <= k < |labels| ==> labels[k] != Insert(h)
    decreases |labels|
  {
    if labels != [] {
      OverStays(Apply(d, labels[0]), labels[1..], last, h);
      hide Apply;
      forall k | 0 <= k < |labels|
        ensures labels[k] != Insert(h)
      {
        if k > 0 { assert labels[1..][k - 1] == labels[k]; }
      }
    }
  }

  /** A connection the user refused is over for good: it never enters its id, whatever the others do. */
  lemma {:induction false} RefusedForGood(d: Daemon, h: nat, labels: seq<Label>, last: Daemon)
    requires Enabled(d, Answer(h, false)) && Runs(Apply(d, Answer(h, false)), labels, last)
    ensures At(last, h, Over) && forall k :: 0 <= k < |labels| ==> labels[k] != Insert(h)
  {
    OverStays(Apply(d, Answer(h, false)), labels, last, h);
  }

  /** The step takes the id out of the set: a completed or failed acceptance, a finished text, a complete transfer. */
  predicate Removes(d: Daemon, l: Label, id: Id) {
    match l
    case Accept(h, outcome) => outcome == Error && h < |d.handlers| && d.handlers[h].id == id
    case TextClosed(h) => h < |d.handlers| && d.handlers[h].id == id
    case ChunksEnd(h, finish) => finish == Complete && h < |d.handlers| && d.handlers[h].id == id
    case _ => false
  }

  /** A run none of whose steps removes the id. */
  ghost predicate Spares(d: Daemon, labels: seq<Label>, id: Id)
    decreases |labels|
  {
    labels == [] ||
    (Enabled(d, labels[0]) ==> !Removes(d, labels[0], id) && Spares(Apply(d, labels[0]), labels[1..], id))
  }

  /** An enabled step takes a consented id out of the set if and only if it is one that removes it. */
  lemma OnlyRemovals(d: Daemon, l: Label, id: Id)
    requires Enabled(d, l) && id in d.consented
    ensures id !in Apply(d, l).consented <==> Removes(d, l, id)
  {
  }

  lemma {:induction false} StaysConsented(d: Daemon, labels: seq<Label>, last: Daemon, id: Id)
    requires Runs(d, labels, last) && Spares(d, labels, id) && id in d.consented
    ensures id in last.consented
    decreases |labels|
  {
    if labels != [] {
      OnlyRemovals(d, labels[0], id);
      StaysConsented(Apply(d, labels[0]), labels[1..], last, id);
    }
  }

  /**
   Reconnects need no prompt: once a handler has inserted its id, and however its chunk processing then fails, a later
   connection with the same id is accepted at its first look, unless some handler of that id removed it meanwhile.
   */
  lemma ReconnectAccepted(d: Daemon, h: nat, labels: seq<Label>, last: Daemon, h2: nat)
    requires Enabled(d, Insert(h)) && Runs(Apply(d, Insert(h)), labels, last)
    requires Spares(Apply(d, Insert(h)), labels, d.handlers[h].id)
    requires Enabled(last, Look(h2)) && last.handlers[h2].id == d.handlers[h].id
    ensures At(Apply(last, Look(h2)), h2, Accepted)
  {
    StaysConsented(Apply(d, Insert(h)), labels, last, d.handlers[h].id);
  }
}
