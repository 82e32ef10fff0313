/**
 The every-boot data backfills.  Two of them cannot be made idempotent by their WHERE clause
 and are gated on a once-marker row in `app_config`; the source-name corrections run unguarded
 on every boot.
 */
module Backfills {
  import opened Common

  // `channel_parser_config`: the parser format and `instant_entry_enabled`.
  datatype Parser = Parser(format: string, instant: int)

  // `ea_trade_templates`: tp1_pips .. tp8_pips.
  type Ladder = s: seq<real> | |s| == 8 witness [0.0, 0.0, 0.0, 0.0, 0.0, 0.0, 0.0, 0.0]

  const GD2_MARKER := "gd2_ime_backfill_done"
  const PIPS_MARKER := "anchor_tp_pips_migrated_2026_07_31"

  datatype State = State(
    hasConfig: bool,              // the app_config table exists
    markers: set<string>,         // its keys
    parsers: map<string, Parser>,
    templates: map<string, Ladder>)

  /** What happens to the database over its life: starts of the app, and any user edit of a table. */
  datatype Event = Boot | EditParsers(parsers: map<string, Parser>) | EditTemplates(templates: map<string, Ladder>)

  function SwitchedOn(parsers: map<string, Parser>): map<string, Parser> {
    map c | c in parsers ::
      if parsers[c].format == "gd2" && parsers[c].instant == 0 then parsers[c].(instant := 1) else parsers[c]
  }

  function TimesTen(v: real): real { if v != 0.0 then v * 10.0 else v }

  // The first `n` of the eight UPDATEs.
  function Scaled(ladder: Ladder, n: nat): Ladder
    requires n <= 8
  {
    seq(8, i requires 0 <= i < 8 => if i < n then TimesTen(ladder[i]) else ladder[i])
  }

  function AllScaled(templates: map<string, Ladder>, n: nat): map<string, Ladder>
    requires n <= 8
  {
    map t | t in templates :: Scaled(templates[t], n)
  }

  /** The two corrections, value by value. */
  lemma FixesExactly(parsers: map<string, Parser>, templates: map<string, Ladder>)
    ensures var fixed := SwitchedOn(parsers);
            && fixed.Keys == parsers.Keys
            && forall c :: c in parsers ==>
                 && fixed[c].format == parsers[c].format
                 && fixed[c].instant
                    == if parsers[c].format == "gd2" && parsers[c].instant == 0 then 1 else parsers[c].instant
    ensures var fixed := AllScaled(templates, 8);
            && fixed.Keys == templates.Keys
            && forall t, i :: t in templates && 0 <= i < 8 ==> fixed[t][i] == 10.0 * templates[t][i]
  {
  }

  // UPDATE ea_trade_templates SET tp{n}_pips = tp{n}_pips * 10 WHERE tp{n}_pips != 0
  function ScaleColumn(templates: map<string, Ladder>, n: nat): map<string, Ladder>
    requires n < 8
  {
    map t | t in templates :: templates[t][n := TimesTen(templates[t][n])]
  }

  lemma ScaleNext(templates: map<string, Ladder>, n: nat)
    requires n < 8
    ensures ScaleColumn(AllScaled(templates, n), n) == AllScaled(templates, n + 1)
    ensures AllScaled(templates, 0) == templates
  {
    forall t | t in templates
      ensures Scaled(templates[t], n)[n := TimesTen(Scaled(templates[t], n)[n])] == Scaled(templates[t], n + 1)
      ensures Scaled(templates[t], 0) == templates[t]
    {
    }
  }

  // Scaling twice differs from scaling once exactly where something is not zero.
  lemma ScaledAgain(templates: map<string, Ladder>)
    ensures AllScaled(AllScaled(templates, 8), 8) == AllScaled(templates, 8)
            <==> forall t, i :: t in templates && 0 <= i < 8 ==> templates[t][i] == 0.0
  {
    var once := AllScaled(templates, 8);
    var twice := AllScaled(once, 8);
    forall t, i | t in templates && 0 <= i < 8
      ensures twice[t][i] == once[t][i] <==> templates[t][i] == 0.0
    {
    }
    if twice != once {
      var t :| t in templates && twice[t] != once[t];
      var i :| 0 <= i < 8 && twice[t][i] != once[t][i];
      assert templates[t][i] != 0.0;
    }
  }

  function Marked(s: State, key: string): State {
    if s.hasConfig then s.(markers := s.markers + {key}) else s
  }

  predicate Seen(s: State, key: string) { s.hasConfig && key in s.markers }

  function Gd2Fix(s: State): State {
    if Seen(s, GD2_MARKER) then s else Marked(s.(parsers := SwitchedOn(s.parsers)), GD2_MARKER)
  }

  function PipsFix(s: State): State {
    if Seen(s, PIPS_MARKER) then s else Marked(s.(templates := AllScaled(s.templates, 8)), PIPS_MARKER)
  }

  function Step(s: State, e: Event): State {
    match e
    case Boot => PipsFix(Gd2Fix(s))
    case EditParsers(parsers) => s.(parsers := parsers)
    case EditTemplates(templates) => s.(templates := templates)
  }

  function Run(s: State, events: seq<Event>): State
    decreases |events|
  {
    if events == [] then s else Run(Step(s, events[0]), events[1..])
  }

  function Edits(events: seq<Event>): seq<Event> {
    if events == [] then []
    else (if events[0].Boot? then [] else [events[0]]) + Edits(events[1..])
  }

  lemma {:induction false} RunConcat(s: State, a: seq<Event>, b: seq<Event>)
    ensures Run(s, a + b) == Run(Run(s, a), b)
    decreases |a|
  {
    if a == [] {
      assert a + b == b;
    } else {
      assert (a + b)[1..] == a[1..] + b;
      RunConcat(Step(s, a[0]), a[1..], b);
    }
  }

  lemma {:induction false} MarkedBootsAreInvisible(s: State, events: seq<Event>)
    requires Seen(s, GD2_MARKER) && Seen(s, PIPS_MARKER)
    ensures Run(s, events) == Run(s, Edits(events))
    decreases |events|
  {
    if events != [] {
      MarkedBootsAreInvisible(Step(s, events[0]), events[1..]);
      if events[0].Boot? {
        assert Step(s, Boot) == s && Edits(events) == Edits(events[1..]);
      } else {
        assert Edits(events)[0] == events[0] && Edits(events)[1..] == Edits(events[1..]);
      }
    }
  }

  lemma {:induction false} EditsKeepMarkers(s: State, edits: seq<Event>)
    requires forall e :: e in edits ==> !e.Boot?
    ensures Run(s, edits).markers == s.markers && Run(s, edits).hasConfig == s.hasConfig
    decreases |edits|
  {
    if edits != [] {
      assert edits[0] in edits;
      EditsKeepMarkers(Step(s, edits[0]), edits[1..]);
    }
  }

  /**
   Over any life each correction is applied once, by the first boot, to what the user had made of
   the tables by then, unless its marker was there from the start: then it is never applied.
   Everything after that boot is the user's edits and nothing else.
   */
  lemma AppliedExactlyOnce(s: State, before: seq<Event>, after: seq<Event>)
    requires s.hasConfig && forall e :: e in before ==> !e.Boot?
    ensures var first := Run(s, before);
            var parsers := if GD2_MARKER in s.markers then first.parsers else SwitchedOn(first.parsers);
            var templates := if PIPS_MARKER in s.markers then first.templates else AllScaled(first.templates, 8);
            var corrected := first.(parsers := parsers, templates := templates,
                                    markers := s.markers + {GD2_MARKER, PIPS_MARKER});
            Run(s, before + [Boot] + after) == Run(corrected, Edits(after))
  {
    var first := Run(s, before);
    EditsKeepMarkers(s, before);
    RunConcat(s, before + [Boot], after);
    RunConcat(s, before, [Boot]);
    var booted := Step(first, Boot);
    assert booted.markers == first.markers + {GD2_MARKER, PIPS_MARKER};
    assert Run(first, [Boot]) == booted;
    MarkedBootsAreInvisible(booted, after);
  }

  /** A value the user sets after the first boot stays, however often the app starts again. */
  lemma EditStays(s: State, before: seq<Event>, edit: Event, boots: nat)
    requires s.hasConfig && Boot in before && !edit.Boot?
    ensures Run(s, before + [edit] + seq(boots, _ => Boot)) == Step(Run(s, before), edit)
  {
    var later := seq(boots, _ => Boot);
    RunConcat(s, before + [edit], later);
    RunConcat(s, before, [edit]);
    BootMarks(s, before);
    assert Run(Run(s, before), [edit]) == Step(Run(s, before), edit);
    MarkedBootsAreInvisible(Step(Run(s, before), edit), later);
    NoEditsInBoots(later);
  }

  lemma {:induction false} NoEditsInBoots(events: seq<Event>)
    requires forall e :: e in events ==> e.Boot?
    ensures Edits(events) == []
  {
    if events != [] {
      assert events[0] in events;
      NoEditsInBoots(events[1..]);
    }
  }

  lemma {:induction false} MarksStay(s: State, events: seq<Event>, key: string)
    requires Seen(s, key)
    ensures Seen(Run(s, events), key)
    decreases |events|
  {
    if events != [] {
      MarksStay(Step(s, events[0]), events[1..], key);
    }
  }

  lemma {:induction false} BootMarks(s: State, events: seq<Event>)
    requires s.hasConfig && Boot in events
    ensures Seen(Run(s, events), GD2_MARKER) && Seen(Run(s, events), PIPS_MARKER)
    decreases |events|
  {
    if events[0].Boot? {
      MarksStay(Step(s, Boot), events[1..], GD2_MARKER);
      MarksStay(Step(s, Boot), events[1..], PIPS_MARKER);
    } else {
      BootMarks(Step(s, events[0]), events[1..]);
    }
  }

  /**
   The marker's table is what "once" rests on: a second pass leaves the ladders alone iff
   `app_config` exists or there is nothing to scale.  An application start creates the table
   first, so the other case concerns a pass on a bare connection only.
   */
  lemma OnceNeedsConfig(s: State)
    requires PIPS_MARKER !in s.markers
    ensures Run(s, [Boot, Boot]).templates == Run(s, [Boot]).templates
            <==> s.hasConfig || forall t, i :: t in s.templates && 0 <= i < 8 ==> s.templates[t][i] == 0.0
  {
    var one := Step(s, Boot);
    var two := Step(one, Boot);
    assert [Boot, Boot][1..] == [Boot] && [Boot][1..] == [];
    assert Run(s, [Boot]) == one;
    assert Run(s, [Boot, Boot]) == Run(one, [Boot]) == two;
    if s.hasConfig {
      assert two.templates == one.templates;
    } else {
      assert one.templates == AllScaled(s.templates, 8) && two.templates == AllScaled(one.templates, 8);
      ScaledAgain(s.templates);
    }
  }

  /******* The unguarded source-name corrections *******/

  const OLD_NAME := "GD Copy Engine"
  const NEW_NAME := "Reversal Engine"

  // `LIKE 'instant:%'`, which ignores case
  predicate HasPrefix(name: string) { |name| >= 8 && Lower(name[..8]) == "instant:" }

  /** One boot: the rebrand, then the prefix strip. */
  function Corrected(name: string): string {
    var rebranded := if name == OLD_NAME then NEW_NAME else name;
    if HasPrefix(rebranded) then rebranded[8..] else rebranded
  }

  /** The corrections character by character: an ASCII letter of the prefix counts in either case. */
  lemma CorrectedExactly(name: string)
    ensures HasPrefix(name) <==>
              |name| >= 8 && forall i :: 0 <= i < 8 ==>
                name[i] == "instant:"[i] || name[i] == "INSTANT:"[i]
    ensures Corrected(name)
            == if name == "GD Copy Engine" then "Reversal Engine"
               else if HasPrefix(name) then name[8..]
               else name
  {
    OldNameIsBare();
    if |name| >= 8 {
      forall i | 0 <= i < 8
        ensures Lower(name[..8])[i] == "instant:"[i] <==> name[i] == "instant:"[i] || name[i] == "INSTANT:"[i]
      {
        assert Lower("INSTANT:")[i] == "instant:"[i];
      }
    }
  }

  function CorrectedTimes(name: string, n: nat): string
    decreases n
  {
    if n == 0 then name else CorrectedTimes(Corrected(name), n - 1)
  }

  function Prefixes(name: string): nat
    decreases |name|
  {
    if HasPrefix(name) then 1 + Prefixes(name[8..]) else 0
  }

  function Bare(name: string): string
    decreases |name|
  {
    if HasPrefix(name) then Bare(name[8..]) else name
  }

  lemma OldNameIsBare()
    ensures !HasPrefix(OLD_NAME) && !HasPrefix(NEW_NAME)
  {
    assert Lower(OLD_NAME[..8])[0] != "instant:"[0] && Lower(NEW_NAME[..8])[0] != "instant:"[0];
  }

  /** A name settles after one boot for each prefix it carries and one for the rebrand, on its bare, rebranded form. */
  lemma {:induction false} NamesSettle(name: string, n: nat)
    requires n >= Prefixes(name) + 1
    ensures CorrectedTimes(name, n) == if Bare(name) == OLD_NAME then NEW_NAME else Bare(name)
    decreases n
  {
    OldNameIsBare();
    if HasPrefix(name) {
      NamesSettle(name[8..], n - 1);
    } else if n > 1 {
      NamesSettle(Corrected(name), n - 1);
    } else {
      assert CorrectedTimes(name, 1) == CorrectedTimes(Corrected(name), 0);
    }
  }

  /** One boot is enough exactly when at most one correction is due. */
  lemma OneBootSettles(name: string)
    ensures Corrected(Corrected(name)) == Corrected(name)
            <==> Prefixes(name) == 0 || (Prefixes(name) == 1 && Bare(name) != OLD_NAME)
  {
    OldNameIsBare();
    if HasPrefix(name) {
      assert Prefixes(name) == 1 + Prefixes(name[8..]);
      if HasPrefix(name[8..]) {
        assert |Corrected(name[8..])| < |name[8..]|;
      }
    }
  }

  /******* The two guarded backfills as they run *******/

  class Connection {
    var state: State

    constructor (s: State)
      ensures state == s
    {
      state := s;
    }

    method OnceMarker(key: string) returns (seen: bool)
      ensures seen == Seen(state, key)
    {
      seen := state.hasConfig && key in state.markers;
    }

    method SetOnceMarker(key: string)
      modifies this
      ensures state == Marked(old(state), key)
    {
      if state.hasConfig {
        state := state.(markers := state.markers + {key});
      }
    }

    method Gd2InstantEntry()
      modifies this
      ensures state == Gd2Fix(old(state))
    {
      var seen := OnceMarker(GD2_MARKER);
      if !seen {
        state := state.(parsers := SwitchedOn(state.parsers));
        SetOnceMarker(GD2_MARKER);
      }
    }

    method AnchorTpPipsUnits()
      modifies this
      ensures state == PipsFix(old(state))
    {
      var seen := OnceMarker(PIPS_MARKER);
      if seen {
        return;
      }
      ScaleNext(state.templates, 0);
      for n := 0 to 8
        invariant state == old(state).(templates := AllScaled(old(state).templates, n))
      {
        ScaleNext(old(state).templates, n);
        state := state.(templates := ScaleColumn(state.templates, n));
      }
      SetOnceMarker(PIPS_MARKER);
    }

    /** The two marker-gated members of `run`. */
    method RunBackfills()
      modifies this
      ensures state == Step(old(state), Boot)
    {
      Gd2InstantEntry();
      AnchorTpPipsUnits();
    }
  }
}
