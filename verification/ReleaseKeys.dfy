/** The text of a release key and the pattern that reads it back, for which `ReleaseMonitor` keeps the two numbers. */
module ReleaseKeys {
  import opened Wrappers
  import opened ReleaseMonitor

  predicate AllDigits(text: string) {
    forall ch | ch in text :: '0' <= ch <= '9'
  }

  function Decimal(n: nat): string {
    var last := ['0' + (n % 10) as char];
    if n < 10 then last else Decimal(n / 10) + last
  }

  /** At least two digits. */
  function Padded(n: nat): string {
    if n < 10 then "0" + Decimal(n) else Decimal(n)
  }

  function Value(text: string): nat
    requires AllDigits(text)
  {
    if text == "" then 0
    else
      var n := |text| - 1;
      assert text[n] in text && forall ch | ch in text[..n] :: ch in text;
      10 * Value(text[..n]) + (text[n] - '0') as nat
  }

  function KeyText(k: Key): string {
    match k
    case NoKey => ""
    case Episode(season, episode) => "S" + Padded(season) + "E" + Padded(episode)
    case Other(text) => text
  }

  /** The whole text is `S`, one to three digits, `E`, and one to four digits. */
  predicate Reads(text: string, season: string, episode: string) {
    && text == "S" + season + "E" + episode
    && AllDigits(season) && 1 <= |season| <= 3
    && AllDigits(episode) && 1 <= |episode| <= 4
  }

  // ----- digits --------------------------------------------------------------------------------

  lemma ValueSnoc(text: string, ch: char)
    requires AllDigits(text) && '0' <= ch <= '9'
    ensures AllDigits(text + [ch]) && Value(text + [ch]) == 10 * Value(text) + (ch - '0') as nat
  {
    var whole := text + [ch];
    assert whole[..|whole| - 1] == text;
  }

  lemma {:induction false} DecimalIs(n: nat)
    ensures Decimal(n) != "" && AllDigits(Decimal(n)) && Value(Decimal(n)) == n
    decreases n
  {
    var last := '0' + (n % 10) as char;
    if n < 10 {
      ValueSnoc("", last);
      assert "" + [last] == [last];
    } else {
      DecimalIs(n / 10);
      ValueSnoc(Decimal(n / 10), last);
    }
  }

  lemma PaddedIs(n: nat)
    ensures AllDigits(Padded(n)) && Value(Padded(n)) == n
  {
    DecimalIs(n);
    if n < 10 {
      ValueSnoc("", '0');
      assert "" + ['0'] == "0";
      ValueSnoc("0", '0' + n as char);
    }
  }

  lemma DecimalLength(n: nat)
    ensures |Decimal(n)| == if n < 10 then 1 else |Decimal(n / 10)| + 1
  {
  }

  lemma PaddedLength(n: nat)
    ensures |Padded(n)| >= 2
    ensures |Padded(n)| <= 3 <==> n < 1000
    ensures |Padded(n)| <= 4 <==> n < 10000
  {
    DecimalLength(n);
    DecimalLength(n / 10);
    DecimalLength(n / 100);
    DecimalLength(n / 1000);
  }

  // ----- keys ----------------------------------------------------------------------------------

  /** The digits end at the first character that is none. */
  lemma OneCut(s: string, e: string, season: string, episode: string)
    requires AllDigits(s) && AllDigits(season) && "S" + s + "E" + e == "S" + season + "E" + episode
    ensures s == season && e == episode
  {
    var one, two := "S" + s + "E" + e, "S" + season + "E" + episode;
    assert one[|s| + 1] == 'E' && two[|season| + 1] == 'E';
    assert forall i | 0 <= i < |s| :: one[i + 1] == s[i] && s[i] in s;
    assert forall i | 0 <= i < |season| :: two[i + 1] == season[i] && season[i] in season;
    assert |s| == |season|;
    assert one[1..|s| + 1] == s && two[1..|s| + 1] == season;
    assert one[|s| + 2..] == e && two[|s| + 2..] == episode;
  }

  /** A key is compared by its numbers exactly when the pattern reads its text, and then by what it reads;
      any other compares as (0, 0). */
  lemma PatternReads(k: Key, season: string, episode: string)
    requires !k.Other?
    ensures InRange(k) <==> exists s, e :: Reads(KeyText(k), s, e)
    ensures Reads(KeyText(k), season, episode) ==> ReleaseTuple(k) == (Value(season), Value(episode))
    ensures (forall s, e :: !Reads(KeyText(k), s, e)) ==> ReleaseTuple(k) == (0, 0)
  {
    if k.Episode? {
      var s, e := Padded(k.season), Padded(k.episode);
      PaddedIs(k.season);
      PaddedIs(k.episode);
      PaddedLength(k.season);
      PaddedLength(k.episode);
      assert InRange(k) ==> Reads(KeyText(k), s, e);
      forall x, y | Reads(KeyText(k), x, y)
        ensures x == s && y == e
      {
        OneCut(s, e, x, y);
      }
    }
  }

  /** Different keys have different texts, so comparing keys is comparing texts. */
  lemma KeyTextsDiffer(a: Key, b: Key)
    requires !a.Other? && !b.Other? && KeyText(a) == KeyText(b)
    ensures a == b
  {
    if a.Episode? && b.Episode? {
      PaddedIs(a.season);
      PaddedIs(a.episode);
      PaddedIs(b.season);
      PaddedIs(b.episode);
      OneCut(Padded(a.season), Padded(a.episode), Padded(b.season), Padded(b.episode));
    }
  }

  predicate HasNumbers(row: Row) {
    !row.baseline.Other? && !row.pending.Other? && !row.notified.Other?
  }

  lemma SetKeepsNumbers(row: Option<Row>, job: Job, wanted: bool, page: Option<PageSnapshot>)
    requires row.Some? ==> HasNumbers(row.value)
    ensures HasNumbers(AfterSet(row, job, wanted, page))
  {
    SetOutcome(row, job, wanted, page);
    FallbackIs(job);
  }

  lemma TickKeepsNumbers(row: Row, occurrence: string, page: Option<PageSnapshot>, localized: bool, now: int, today: int)
    requires HasNumbers(row)
    ensures HasNumbers(AfterTick(row, occurrence, page, localized, now, today).0)
  {
  }

  /** In every run the stored keys have such texts: other text is only ever compared, by an acknowledgement. */
  lemma {:induction false} StoredKeysHaveNumbers(calls: seq<Call>)
    ensures RowAfter(calls).Some? ==> HasNumbers(RowAfter(calls).value)
    decreases |calls|
  {
    if calls != [] {
      var row := RowAfter(calls[..|calls| - 1]);
      StoredKeysHaveNumbers(calls[..|calls| - 1]);
      match calls[|calls| - 1] {
        case Set(job, wanted, page) => SetKeepsNumbers(row, job, wanted, page);
        case Auto(job, page) => SetKeepsNumbers(row, job, true, page);
        case Tick(occurrence, page, localized, now, today) =>
          if row.Some? {
            TickKeepsNumbers(row.value, occurrence, page, localized, now, today);
          }
        case _ =>
      }
    }
  }
}
