/** A history record (`struct HISTORY`) and the way `printHistory` renders the
    store: newest first, each line prefixed by its offset from the newest. */
module Records {
  import opened Text

  /** One executed input line: the command word and its parameters.
      `numParams` of the source is `|params|`. */
  datatype Record = Record(cmd: string, params: seq<string>)

  /** A record whose every word is a token, as every record built from
      `string_parser`'s output is. */
  predicate WellFormed(r: Record) {
    IsToken(r.cmd) && forall p :: p in r.params ==> IsToken(p)
  }

  predicate AllWellFormed(rs: seq<Record>) {
    forall k :: 0 <= k < |rs| ==> WellFormed(rs[k])
  }

  /** The record `pushHistory` builds from a non-empty word array. */
  function FromWords(words: seq<string>): (r: Record)
    requires |words| >= 1
    ensures [r.cmd] + r.params == words
  {
    Record(words[0], words[1..])
  }

  /** The parameters as `printHistory` prints them: each preceded by a space. */
  function ParamsText(ps: seq<string>): string {
    if ps == [] then [] else ParamsText(ps[..|ps| - 1]) + " " + ps[|ps| - 1]
  }

  /** Line `k` of the listing: `k: cmd p1 ... pm` and a newline. */
  function HistoryLine(k: nat, r: Record): string {
    Itoa(k) + ": " + r.cmd + ParamsText(r.params) + "\n"
  }

  const NoHistory: string := "No history to print.\n"

  /** What `printHistory` prints for the records `rs` (oldest first): the
      notice when there are none, otherwise one line per record, newest first,
      line `k` showing the record `k` places before the newest. */
  function Listing(rs: seq<Record>): (out: seq<string>)
    ensures rs == [] ==> out == [NoHistory]
    ensures rs != [] ==> |out| == |rs|
    ensures rs != [] ==> forall k :: 0 <= k < |rs| ==> out[k] == HistoryLine(k, rs[|rs| - 1 - k])
  {
    if rs == [] then [NoHistory]
    else seq(|rs|, k requires 0 <= k < |rs| => HistoryLine(k, rs[|rs| - 1 - k]))
  }

  /** The printed parameters are the words joined by spaces, after a first word. */
  lemma {:induction false} ParamsTextJoin(t: string, ps: seq<string>)
    ensures t + ParamsText(ps) == Join([t] + ps)
  {
    if ps != [] {
      var init := ps[..|ps| - 1];
      ParamsTextJoin(t, init);
      JoinSnoc([t] + init, ps[|ps| - 1]);
      assert [t] + ps == ([t] + init) + [ps[|ps| - 1]];
    }
  }

  lemma {:induction false} JoinSnoc(ts: seq<string>, w: string)
    requires |ts| >= 1
    ensures Join(ts + [w]) == Join(ts) + " " + w
  {
    if |ts| == 1 {
      assert (ts + [w])[1..] == [w];
    } else {
      JoinSnoc(ts[1..], w);
      assert (ts + [w])[1..] == ts[1..] + [w];
    }
  }

  /** A printed history line, read back by the tokenizer, gives the offset
      tag `k:` followed by exactly the record's command and parameters. */
  lemma HistoryLineReparses(k: nat, r: Record)
    requires WellFormed(r)
    ensures Split(HistoryLine(k, r)) == [Itoa(k) + ":", r.cmd] + r.params
  {
    var tag := Itoa(k) + ":";
    ItoaIsToken(k);
    assert IsToken(tag) by {
      assert forall j :: 0 <= j < |Itoa(k)| ==> tag[j] == Itoa(k)[j];
    }
    var words := [tag, r.cmd] + r.params;
    ParamsTextJoin(tag, [r.cmd] + r.params);
    assert [tag] + ([r.cmd] + r.params) == words;
    ParamsTextCons(r.cmd, r.params);
    assert HistoryLine(k, r) == Join(words) + "\n";
    forall w | w in words ensures IsToken(w) {
    }
    SplitJoin(words);
    JoinHasNoNul(words);
    SplitSnocSpace(Join(words), '\n');
  }

  lemma {:induction false} ParamsTextCons(c: string, ps: seq<string>)
    ensures " " + c + ParamsText(ps) == ParamsText([c] + ps)
  {
    if ps != [] {
      ParamsTextCons(c, ps[..|ps| - 1]);
      assert ([c] + ps)[..|ps|] == [c] + ps[..|ps| - 1];
    } else {
      assert ([c] + ps)[..0] == [];
    }
  }

  lemma {:induction false} JoinHasNoNul(ts: seq<string>)
    requires forall t :: t in ts ==> IsToken(t)
    ensures NUL !in Join(ts)
  {
    if |ts| == 1 {
      assert ts[0] in ts;
    } else if |ts| > 1 {
      assert ts[0] in ts;
      JoinHasNoNul(ts[1..]);
    }
  }
}
