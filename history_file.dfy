/** The text format of the history file, as `writeHistory` prints it and
    `getHistory` scans it back:

        <count>
        <len cmd> <cmd> <numParams> <len p1> <p1> ... <len pm> <pm>
        ...

    `fscanf` reads whitespace-separated fields, so reading is modelled as the
    whitespace split followed by decoding of the token sequence. The length
    fields are read (they must be numbers) and otherwise ignored, as in the
    source, which only uses them to size buffers. */
module HistoryFile {
  import opened Text
  import opened Records

  // ---------------------------------------------------------------------
  // The token sequence

  function ParamTokens(ps: seq<string>): seq<string> {
    if ps == [] then [] else [Itoa(|ps[0]|), ps[0]] + ParamTokens(ps[1..])
  }

  function RecordTokens(r: Record): seq<string> {
    [Itoa(|r.cmd|), r.cmd, Itoa(|r.params|)] + ParamTokens(r.params)
  }

  function RecordsTokens(rs: seq<Record>): seq<string> {
    if rs == [] then [] else RecordTokens(rs[0]) + RecordsTokens(rs[1..])
  }

  /** The fields of the file: the record count, then each record's fields. */
  function EncodeTokens(rs: seq<Record>): seq<string> {
    [Itoa(|rs|)] + RecordsTokens(rs)
  }

  /** `k` parameters, each a `len text` pair; what follows them is returned. */
  function DecodeParams(ts: seq<string>, k: nat): (r: Option<(seq<string>, seq<string>)>)
    ensures r.Some? ==> |r.value.0| == k && |r.value.1| + 2 * k <= |ts|
    ensures r.Some? ==> forall p :: p in r.value.0 ==> p in ts
    ensures r.Some? ==> forall t :: t in r.value.1 ==> t in ts
    decreases k
  {
    if k == 0 then Some(([], ts))
    else if |ts| < 2 || ParseNat(ts[0]).None? then None
    else match DecodeParams(ts[2..], k - 1)
      case None => None
      case Some((ps, rest)) => Some(([ts[1]] + ps, rest))
  }

  /** One record: `len cmd numParams` and the parameters. */
  function DecodeRecord(ts: seq<string>): (r: Option<(Record, seq<string>)>)
    ensures r.Some? ==> |r.value.1| + 3 <= |ts|
    ensures r.Some? ==> r.value.0.cmd in ts && forall p :: p in r.value.0.params ==> p in ts
    ensures r.Some? ==> forall t :: t in r.value.1 ==> t in ts
  {
    if |ts| < 3 || ParseNat(ts[0]).None? || ParseNat(ts[2]).None? then None
    else match DecodeParams(ts[3..], ParseNat(ts[2]).value)
      case None => None
      case Some((ps, rest)) => Some((Record(ts[1], ps), rest))
  }

  /** `count` records in a row. */
  function DecodeRecords(ts: seq<string>, count: nat): (r: Option<(seq<Record>, seq<string>)>)
    ensures r.Some? ==> |r.value.0| == count
    decreases count
  {
    if count == 0 then Some(([], ts))
    else match DecodeRecord(ts)
      case None => None
      case Some((rec, rest)) =>
        match DecodeRecords(rest, count - 1)
        case None => None
        case Some((recs, rest')) => Some(([rec] + recs, rest'))
  }

  /** The records of the file, or None when the fields are not of the
      expected shape. Fields after the last record are ignored. */
  function DecodeTokens(ts: seq<string>): Option<seq<Record>> {
    if |ts| == 0 || ParseNat(ts[0]).None? then None
    else match DecodeRecords(ts[1..], ParseNat(ts[0]).value)
      case None => None
      case Some((recs, _)) => Some(recs)
  }

  // ---------------------------------------------------------------------
  // The text

  /** ` <len p> <p>`: one parameter, as `fprintf(ptr, " %lu %s", ...)`. */
  function ParamText(p: string): string {
    " " + Itoa(|p|) + " " + p
  }

  /** The parameters of a line, one after the other. */
  function ParamsLine(ps: seq<string>): string {
    if ps == [] then [] else ParamText(ps[0]) + ParamsLine(ps[1..])
  }

  /** One line of the file: `fprintf(ptr, "%lu %s %d", ...)`, the parameters, a newline. */
  function RecordLine(r: Record): string {
    Itoa(|r.cmd|) + " " + r.cmd + " " + Itoa(|r.params|) + ParamsLine(r.params) + "\n"
  }

  function RecordLines(rs: seq<Record>): string {
    if rs == [] then [] else RecordLine(rs[0]) + RecordLines(rs[1..])
  }

  /** The whole file written for the records `rs`: the count written as
      `++IDX` (the number of records), then one line per record. */
  function Save(rs: seq<Record>): string {
    Itoa(|rs|) + "\n" + RecordLines(rs)
  }

  /** What `getHistory` recovers from the file's text. */
  function Load(text: string): Option<seq<Record>> {
    DecodeTokens(Split(text))
  }

  // ---------------------------------------------------------------------
  // Appending at the end, the way the writer's loops build the text

  lemma {:induction false} ParamsLineSnoc(ps: seq<string>, p: string)
    ensures ParamsLine(ps + [p]) == ParamsLine(ps) + ParamText(p)
  {
    if ps != [] {
      ParamsLineSnoc(ps[1..], p);
      assert (ps + [p])[1..] == ps[1..] + [p];
      AppendAssoc(ParamText(ps[0]), ParamsLine(ps[1..]), ParamText(p));
    }
  }

  lemma {:induction false} RecordLinesSnoc(rs: seq<Record>, r: Record)
    ensures RecordLines(rs + [r]) == RecordLines(rs) + RecordLine(r)
  {
    if rs != [] {
      RecordLinesSnoc(rs[1..], r);
      assert (rs + [r])[1..] == rs[1..] + [r];
    }
  }

  // ---------------------------------------------------------------------
  // Round trips

  lemma {:induction false} DecodeParamTokens(ps: seq<string>, rest: seq<string>)
    ensures DecodeParams(ParamTokens(ps) + rest, |ps|) == Some((ps, rest))
  {
    if ps != [] {
      var ts := ParamTokens(ps) + rest;
      DecodeParamTokens(ps[1..], rest);
      ParseItoa(|ps[0]|);
      assert ts[0] == Itoa(|ps[0]|) && ts[1] == ps[0];
      assert ts[2..] == ParamTokens(ps[1..]) + rest;
      assert DecodeParams(ts[2..], |ps| - 1) == Some((ps[1..], rest));
      assert |ts| >= 2 && ParseNat(ts[0]).Some?;
      assert DecodeParams(ts, |ps|) == Some(([ts[1]] + ps[1..], rest));
      assert [ps[0]] + ps[1..] == ps;
    } else {
      assert ParamTokens(ps) + rest == rest;
    }
  }

  lemma DecodeRecordTokens(r: Record, rest: seq<string>)
    ensures DecodeRecord(RecordTokens(r) + rest) == Some((r, rest))
  {
    var ts := RecordTokens(r) + rest;
    ParseItoa(|r.cmd|);
    ParseItoa(|r.params|);
    assert ts[3..] == ParamTokens(r.params) + rest;
    DecodeParamTokens(r.params, rest);
  }

  lemma {:induction false} DecodeRecordsTokens(rs: seq<Record>, rest: seq<string>)
    ensures DecodeRecords(RecordsTokens(rs) + rest, |rs|) == Some((rs, rest))
  {
    if rs != [] {
      var ts := RecordsTokens(rs) + rest;
      AppendAssoc(RecordTokens(rs[0]), RecordsTokens(rs[1..]), rest);
      DecodeRecordTokens(rs[0], RecordsTokens(rs[1..]) + rest);
      DecodeRecordsTokens(rs[1..], rest);
      assert DecodeRecord(ts) == Some((rs[0], RecordsTokens(rs[1..]) + rest));
      assert DecodeRecords(RecordsTokens(rs[1..]) + rest, |rs| - 1) == Some((rs[1..], rest));
      assert [rs[0]] + rs[1..] == rs;
    } else {
      assert RecordsTokens(rs) + rest == rest;
    }
  }

  /** Decoding the fields of the file gives back the records, for any records. */
  lemma DecodeEncode(rs: seq<Record>)
    ensures DecodeTokens(EncodeTokens(rs)) == Some(rs)
  {
    ParseItoa(|rs|);
    assert EncodeTokens(rs)[1..] == RecordsTokens(rs) + [];
    DecodeRecordsTokens(rs, []);
  }

  /** Splitting the parameter part of a line, its newline and whatever follows. */
  lemma {:induction false} SplitParamsLine(t: string, ps: seq<string>, rest: string)
    requires IsToken(t) && forall p :: p in ps ==> IsToken(p)
    ensures Split(t + ParamsLine(ps) + "\n" + rest) == [t] + ParamTokens(ps) + Split(rest)
    decreases |ps|
  {
    if ps == [] {
      assert t + ParamsLine(ps) + "\n" + rest == t + ['\n'] + rest;
      SplitCons(t, '\n', rest);
    } else {
      var p := ps[0];
      SplitParamText(t, p, ParamsLine(ps[1..]), rest);
      SplitParamsLine(p, ps[1..], rest);
      TokensRegroup(t, Itoa(|p|), p, ParamTokens(ps[1..]), Split(rest));
    }
  }

  /** The first parameter of the part: its length field and what follows. */
  lemma SplitParamText(t: string, p: string, l: string, rest: string)
    requires IsToken(t)
    ensures Split(t + (ParamText(p) + l) + "\n" + rest) == [t, Itoa(|p|)] + Split(p + l + "\n" + rest)
  {
    var n := Itoa(|p|);
    var tail := p + l + "\n" + rest;
    Regroup(t, n, p, l, rest);
    ItoaIsToken(|p|);
    SplitCons(t, ' ', n + [' '] + tail);
    SplitCons(n, ' ', tail);
  }

  lemma TokensRegroup(t: string, n: string, p: string, pt: seq<string>, sr: seq<string>)
    ensures [t] + ([n, p] + pt) + sr == [t, n] + ([p] + pt + sr)
  {
  }

  lemma Regroup(t: string, n: string, p: string, l: string, rest: string)
    ensures t + (" " + n + " " + p + l) + "\n" + rest == t + [' '] + (n + [' '] + (p + l + "\n" + rest))
  {
  }

  lemma SplitRecordLine(r: Record, rest: string)
    requires WellFormed(r)
    ensures Split(RecordLine(r) + rest) == RecordTokens(r) + Split(rest)
  {
    var a := Itoa(|r.cmd|);
    var b := Itoa(|r.params|);
    var tail := b + ParamsLine(r.params) + "\n" + rest;
    assert RecordLine(r) + rest == a + [' '] + (r.cmd + [' '] + tail);
    ItoaIsToken(|r.cmd|);
    ItoaIsToken(|r.params|);
    SplitCons(a, ' ', r.cmd + [' '] + tail);
    SplitCons(r.cmd, ' ', tail);
    SplitParamsLine(b, r.params, rest);
  }

  lemma {:induction false} SplitRecordLines(rs: seq<Record>)
    requires AllWellFormed(rs)
    ensures Split(RecordLines(rs)) == RecordsTokens(rs)
  {
    if rs != [] {
      assert WellFormed(rs[0]);
      SplitRecordLine(rs[0], RecordLines(rs[1..]));
      SplitRecordLines(rs[1..]);
    }
  }

  /** Reading back what was written gives the same records, and so the same
      `IDX` (the count is written as IDX+1 and restored as count-1), provided
      every word is a non-empty run of non-whitespace. */
  lemma LoadSave(rs: seq<Record>)
    requires AllWellFormed(rs)
    ensures Load(Save(rs)) == Some(rs)
  {
    ItoaIsToken(|rs|);
    SplitCons(Itoa(|rs|), '\n', RecordLines(rs));
    SplitRecordLines(rs);
    DecodeEncode(rs);
  }

  /** Whatever is loaded from a file consists of tokens only. */
  lemma LoadedRecordsWellFormed(text: string)
    requires Load(text).Some?
    ensures AllWellFormed(Load(text).value)
  {
    var ts := Split(text);
    TokensAreTokens(text, 0);
    DecodedFromTokens(ts[1..], ParseNat(ts[0]).value);
  }

  lemma {:induction false} DecodedFromTokens(ts: seq<string>, count: nat)
    requires forall t :: t in ts ==> IsToken(t)
    requires DecodeRecords(ts, count).Some?
    ensures AllWellFormed(DecodeRecords(ts, count).value.0)
    decreases count
  {
    if count > 0 {
      var (rec, rest) := DecodeRecord(ts).value;
      DecodedFromTokens(rest, count - 1);
    }
  }
}
