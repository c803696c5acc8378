/** The Pi sender's command line (`cli.py`): the boolean argument parser
    and the `alert edit` command. Exceptions a command raises are caught by
    `main`, which then exits with 1; the model returns that exit code. */
module Cli {
  import opened Common
  import opened AlertModel
  import opened Storage

  /** `str.lower()` on ASCII letters; other characters are kept. */
  function Lower(s: string): (r: string)
    ensures |r| == |s|
    ensures forall i :: 0 <= i < |s| ==> r[i] == if 'A' <= s[i] <= 'Z' then (s[i] as int + 32) as char else s[i]
  {
    seq(|s|, i requires 0 <= i < |s| => if 'A' <= s[i] <= 'Z' then (s[i] as int + 32) as char else s[i])
  }

  const TRUE_WORDS: set<string> := {"1", "true", "yes", "y", "on"}
  const FALSE_WORDS: set<string> := {"0", "false", "no", "n", "off"}

  /** `_bool_arg(value)`: lower-cases and strips the argument, then looks
      it up among the words for true and for false; anything else raises
      `ArgumentTypeError`. */
  function BoolArg(value: string): (r: Result<bool, string>)
    ensures r.Success? <==> Strip(Lower(value)) in TRUE_WORDS + FALSE_WORDS
    ensures r.Success? ==> (r.value <==> Strip(Lower(value)) in TRUE_WORDS)
  {
    var lowered := Strip(Lower(value));
    if lowered in TRUE_WORDS then Success(true)
    else if lowered in FALSE_WORDS then Success(false)
    else Failure("Invalid boolean value: " + value)
  }

  /** No word means both true and false, so the order of the two lookups
      does not matter. */
  lemma WordsDisjoint()
    ensures TRUE_WORDS * FALSE_WORDS == {}
  {
    assert forall w :: w in TRUE_WORDS ==> w !in FALSE_WORDS by {
      assert "1"[0] != "0"[0] && "true"[0] != "false"[0];
      assert "yes" != "no" && "on" != "no" && "on"[1] != "off"[1];
    }
  }

  /** Upper case and surrounding whitespace are accepted. */
  lemma BoolArgPadded()
    ensures BoolArg(" YES ") == Success(true)
  {
    assert Lower(" YES ") == [' '] + "yes" + [' '];
    StripPadding("yes");
    YesIsTrueWord();
  }

  /** One space on each side of a trimmed word is stripped away. */
  lemma StripPadding(t: string)
    requires t != [] && !IsSpace(t[0]) && !IsSpace(t[|t| - 1])
    ensures Strip([' '] + t + [' ']) == t
  {
    StripLeadingSpace(t);
    StripTrailingSpace(t);
  }

  lemma StripLeadingSpace(t: string)
    requires t != [] && !IsSpace(t[0])
    ensures StripStart([' '] + t + [' '], StrBlanks) == t + [' ']
  {
    var s := [' '] + t + [' '];
    assert s[1..] == t + [' '];
    assert (t + [' '])[0] == t[0];
  }

  lemma StripTrailingSpace(t: string)
    requires t != [] && !IsSpace(t[|t| - 1])
    ensures StripEnd(t + [' '], StrBlanks) == t
  {
    var s := t + [' '];
    assert s[..|s| - 1] == t;
  }

  lemma YesIsTrueWord()
    ensures "yes" in TRUE_WORDS
  {
  }

  lemma OffIsFalseWord()
    ensures "off" in FALSE_WORDS && "off" !in TRUE_WORDS
  {
  }

  lemma MaybeIsNoWord()
    ensures "maybe" !in TRUE_WORDS + FALSE_WORDS
  {
  }

  /** A word for false in mixed case is accepted. */
  lemma BoolArgMixedCase()
    ensures BoolArg("Off") == Success(false)
  {
    assert Lower("Off") == "off";
    StripTrimmed("off");
    OffIsFalseWord();
  }

  /** A word that is neither true nor false is rejected. */
  lemma BoolArgUnknown()
    ensures BoolArg("maybe").Failure?
  {
    assert Lower("maybe") == "maybe";
    StripTrimmed("maybe");
    MaybeIsNoWord();
  }

  /** The arguments of `alert edit`; `None` is an option not given.
      `expires` is already converted by `parse_epoch`. */
  datatype EditArgs = EditArgs(
    alertId: string,
    severity: Option<string>,
    headline: Option<string>,
    instructions: Option<string>,
    sourceUrl: Option<string>,
    verified: Option<bool>,
    expires: Option<int>)

  function StrUpdate(v: Option<string>): Option<Value>
  {
    if v.Some? then Some(Str(v.value)) else None
  }

  /** The `updates` dict of `cmd_alert_edit`, in its order. */
  function Updates(args: EditArgs): seq<(Field, Option<Value>)>
  {
    [ (Severity, StrUpdate(args.severity)),
      (Headline, StrUpdate(args.headline)),
      (Instructions, StrUpdate(args.instructions)),
      (SourceUrl, StrUpdate(args.sourceUrl)),
      (Verified, if args.verified.Some? then Some(Bool(args.verified.value)) else None),
      (Expires, if args.expires.Some? then Some(Int(args.expires.value)) else None) ]
  }

  /** The merge loop: each update that is not `None` overwrites its key. */
  function Merge(payload: map<Field, Value>, updates: seq<(Field, Option<Value>)>): map<Field, Value>
    decreases |updates|
  {
    if updates == [] then payload
    else
      var (key, value) := updates[0];
      Merge(if value.Some? then payload[key := value.value] else payload, updates[1..])
  }

  function Or<T>(o: Option<T>, fallback: T): T
  {
    if o.Some? then o.value else fallback
  }

  /** The edit stated on the packet: every given option replaces its field
      and every other field keeps its stored value. */
  function Edited(p: AlertPacket, args: EditArgs): (q: AlertPacket)
    ensures q.alertId == p.alertId && q.fetchedAt == p.fetchedAt
  {
    p.(severity := Or(args.severity, p.severity),
       headline := Or(args.headline, p.headline),
       instructions := Or(args.instructions, p.instructions),
       sourceUrl := Or(args.sourceUrl, p.sourceUrl),
       verified := Or(args.verified, p.verified),
       expires := Or(args.expires, p.expires))
  }

  /** An update the merge loop can apply to an editable field: no value,
      or a value of the field's type. */
  predicate Fits(f: Field, v: Option<Value>)
  {
    v.None? ||
    match f
    case Severity => v.value.Str?
    case Headline => v.value.Str?
    case Instructions => v.value.Str?
    case SourceUrl => v.value.Str?
    case Verified => v.value.Bool?
    case Expires => v.value.Int?
    case _ => false
  }

  /** The packet with field `f` set to the value of an update; kept when
      the update is `None` or does not fit the field. */
  function Applied(p: AlertPacket, f: Field, v: Option<Value>): AlertPacket
  {
    if v.None? then p
    else match (f, v.value)
      case (Severity, Str(x)) => p.(severity := x)
      case (Headline, Str(x)) => p.(headline := x)
      case (Instructions, Str(x)) => p.(instructions := x)
      case (SourceUrl, Str(x)) => p.(sourceUrl := x)
      case (Verified, Bool(x)) => p.(verified := x)
      case (Expires, Int(x)) => p.(expires := x)
      case _ => p
  }

  /** The updates applied to the packet one after another. */
  function ApplyAll(p: AlertPacket, updates: seq<(Field, Option<Value>)>): AlertPacket
    decreases |updates|
  {
    if updates == [] then p
    else ApplyAll(Applied(p, updates[0].0, updates[0].1), updates[1..])
  }

  /** The merge loop over `to_dict(p)` is the dict of the packet with every
      update applied. */
  lemma {:induction false} MergeApplyAll(p: AlertPacket, updates: seq<(Field, Option<Value>)>)
    requires forall k :: 0 <= k < |updates| ==> Fits(updates[k].0, updates[k].1)
    ensures Merge(ToDict(p), updates) == ToDict(ApplyAll(p, updates))
    decreases |updates|
  {
    if updates != [] {
      var (f, v) := updates[0];
      assert updates == [(f, v)] + updates[1..];
      MergeStep(p, f, v, updates[1..]);
      MergeApplyAll(Applied(p, f, v), updates[1..]);
    }
  }

  /** Merging the updates into `to_dict(p)` gives the dict of the edited
      packet. */
  lemma MergeToDict(p: AlertPacket, args: EditArgs)
    ensures Merge(ToDict(p), Updates(args)) == ToDict(Edited(p, args))
  {
    UpdatesFit(args);
    MergeApplyAll(p, Updates(args));
    EditedIsApplyAll(p, args);
  }

  /** Every update of `alert edit` fits its field. */
  lemma UpdatesFit(args: EditArgs)
    ensures forall k :: 0 <= k < |Updates(args)| ==> Fits(Updates(args)[k].0, Updates(args)[k].1)
  {
  }

  /** Applying the updates in order is the edit stated on the packet. */
  lemma EditedIsApplyAll(p: AlertPacket, args: EditArgs)
    ensures ApplyAll(p, Updates(args)) == Edited(p, args)
  {
    var u := Updates(args);
    var p1 := p.(severity := Or(args.severity, p.severity));
    var p2 := p1.(headline := Or(args.headline, p.headline));
    var p3 := p2.(instructions := Or(args.instructions, p.instructions));
    var p4 := p3.(sourceUrl := Or(args.sourceUrl, p.sourceUrl));
    var p5 := p4.(verified := Or(args.verified, p.verified));
    var p6 := p5.(expires := Or(args.expires, p.expires));
    assert ApplyAll(p5, u[5..]) == p6 by { assert u[5..][1..] == []; }
    assert ApplyAll(p4, u[4..]) == ApplyAll(p5, u[5..]) by { assert u[4..][1..] == u[5..]; }
    assert ApplyAll(p3, u[3..]) == ApplyAll(p4, u[4..]) by { assert u[3..][1..] == u[4..]; }
    assert ApplyAll(p2, u[2..]) == ApplyAll(p3, u[3..]) by { assert u[2..][1..] == u[3..]; }
    assert ApplyAll(p1, u[1..]) == ApplyAll(p2, u[2..]) by { assert u[1..][1..] == u[2..]; }
    assert ApplyAll(p, u) == ApplyAll(p1, u[1..]);
  }

  /** One round of the merge loop on the dict of a packet is the dict of
      the packet with that field updated. */
  lemma MergeStep(p: AlertPacket, f: Field, v: Option<Value>, rest: seq<(Field, Option<Value>)>)
    requires Fits(f, v)
    ensures Merge(ToDict(p), [(f, v)] + rest) == Merge(ToDict(Applied(p, f, v)), rest)
  {
    var q := Applied(p, f, v);
    if v.Some? {
      ToDictUpdate(p, q, f);
      ToDictLookups(q);
    }
    var u := [(f, v)] + rest;
    assert u[1..] == rest;
    MergeHead(ToDict(p), u, ToDict(q));
  }

  /** Packets that differ in at most the field `f` have dicts that differ
      in at most the key `f`. */
  lemma ToDictUpdate(p: AlertPacket, q: AlertPacket, f: Field)
    requires f != AlertId && f != FetchedAt
    requires f != Severity ==> q.severity == p.severity
    requires f != Headline ==> q.headline == p.headline
    requires f != Instructions ==> q.instructions == p.instructions
    requires f != SourceUrl ==> q.sourceUrl == p.sourceUrl
    requires f != Verified ==> q.verified == p.verified
    requires f != Expires ==> q.expires == p.expires
    requires q.alertId == p.alertId && q.fetchedAt == p.fetchedAt
    ensures ToDict(q) == ToDict(p)[f := ToDict(q)[f]]
  {
    var d, e := ToDict(p), ToDict(q);
    ToDictLookups(p);
    ToDictLookups(q);
    var e' := d[f := e[f]];
    assert e.Keys == e'.Keys;
    forall g: Field ensures e[g] == e'[g] {
      if g != f {
        match g
        case AlertId =>
        case Severity =>
        case Headline =>
        case Expires =>
        case Instructions =>
        case SourceUrl =>
        case Verified =>
        case FetchedAt =>
      }
    }
  }

  /** One round of the merge loop. */
  lemma MergeHead(d: map<Field, Value>, u: seq<(Field, Option<Value>)>, next: map<Field, Value>)
    requires u != []
    requires next == if u[0].1.Some? then d[u[0].0 := u[0].1.value] else d
    ensures Merge(d, u) == Merge(next, u[1..])
  {
  }

  /** Merging the updates into `to_dict(p)` and reading the dict back with
      `from_dict` edits the packet field by field and then validates it. */
  lemma MergeIsEdit(p: AlertPacket, args: EditArgs)
    ensures var q := Edited(p, args);
      FromDict(Merge(ToDict(p), Updates(args))) ==
        if Valid(q) then Success(q) else Failure(Invalid(Validate(q).value))
  {
    MergeToDict(p, args);
    FromDictToDict(Edited(p, args));
  }

  /** `cmd_alert_edit(args)`: 1 with the store untouched for an unknown id
      or an edit that fails validation; otherwise upserts the edited packet
      and returns 0. */
  method EditAlert(store: AlertStore, args: EditArgs) returns (code: int)
    modifies store
    ensures store.current == old(store.current)
    ensures Find(old(store.alerts), args.alertId).None? ==> code == 1 && store.alerts == old(store.alerts)
    ensures Find(old(store.alerts), args.alertId).Some? ==>
      var q := Edited(Find(old(store.alerts), args.alertId).value, args);
      && (code == 0 <==> Valid(q))
      && (code == 0 ==> store.alerts == Upserted(old(store.alerts), q))
      && (code != 0 ==> code == 1 && store.alerts == old(store.alerts))
  {
    var alert := store.GetAlert(args.alertId);
    if alert.None? {
      return 1;
    }
    var updates := Updates(args);
    var payload := ToDict(alert.value);
    for i := 0 to |updates|
      invariant Merge(payload, updates[i..]) == Merge(ToDict(alert.value), updates)
    {
      var (key, value) := updates[i];
      assert updates[i..][1..] == updates[i + 1..];
      if value.Some? {
        payload := payload[key := value.value];
      }
    }
    MergeIsEdit(alert.value, args);
    var updated := FromDict(payload);
    if updated.Failure? {
      return 1;
    }
    store.UpsertAlert(updated.value);
    return 0;
  }
}
