/** Which URL a backup's acknowledgement is reported under. The endpoints are warmed from the
    configured list, skipping what does not parse; the name is looked up by position in the list
    as it is configured when the batch is fired. */
module AckLabels {
  import opened Basics
  import opened ControlLoop
  import FireFanOut

  function Texts(urls: seq<Url>): seq<string> {
    seq(|urls|, i requires 0 <= i < |urls| => urls[i].text)
  }

  /** Every warmed endpoint is reported under its own URL. */
  predicate Labelled(warmed: seq<Url>, cfg: FireFanOut.Config) {
    forall i :: 0 <= i < |warmed| ==> FireFanOut.BackupUrl(cfg, i) == warmed[i].text
  }

  /** Whether a URL parses depends on its text alone. */
  predicate TextsDecide(urls: seq<Url>) {
    forall i, j :: 0 <= i < |urls| && 0 <= j < |urls| && urls[i].text == urls[j].text ==> urls[i].parses == urls[j].parses
  }

  /** No URL that parses comes after one that does not. */
  predicate ParseableFirst(urls: seq<Url>) {
    forall i, j :: 0 <= i < j < |urls| && urls[j].parses ==> urls[i].parses
  }

  lemma {:induction false} ParseableIn(urls: seq<Url>)
    ensures |Parseable(urls)| <= |urls|
    ensures forall u :: u in Parseable(urls) ==> u in urls && u.parses
  {
    if urls != [] { ParseableIn(urls[..|urls| - 1]); }
  }

  lemma {:induction false} AllParse(urls: seq<Url>)
    requires forall i :: 0 <= i < |urls| ==> urls[i].parses
    ensures Parseable(urls) == urls
  {
    if urls != [] {
      AllParse(urls[..|urls| - 1]);
      assert urls == urls[..|urls| - 1] + [urls[|urls| - 1]];
    }
  }

  lemma {:induction false} ParseablePrefix(urls: seq<Url>)
    requires ParseableFirst(urls)
    ensures Parseable(urls) <= urls
  {
    if urls != [] {
      var n := |urls| - 1;
      if urls[n].parses {
        AllParse(urls);
      } else {
        ParseablePrefix(urls[..n]);
        assert Parseable(urls) == Parseable(urls[..n]) + [];
      }
    }
  }

  /** Where the first `m` parse and a later one does too, more than `m` parse. */
  lemma {:induction false} MoreParse(urls: seq<Url>, m: nat, j: nat)
    requires m <= j < |urls| && urls[j].parses && forall i :: 0 <= i < m ==> urls[i].parses
    ensures |Parseable(urls)| > m
  {
    var n := |urls| - 1;
    if j < n {
      MoreParse(urls[..n], m, j);
    } else if m > 0 {
      MoreParse(urls[..n], m - 1, m - 1);
    }
  }

  lemma FirstOnesParse(urls: seq<Url>, cfg: FireFanOut.Config, i: nat)
    requires cfg.backupUrls == Texts(urls) && TextsDecide(urls) && Labelled(Parseable(urls), cfg) && i < |Parseable(urls)|
    ensures i < |urls| && urls[i].parses
  {
    ParseableIn(urls);
    var u := Parseable(urls)[i];
    assert u in urls && u.parses;
    var j :| 0 <= j < |urls| && urls[j] == u;
    assert urls[i].text == u.text;
  }

  /** With the list unchanged between arming and firing, every endpoint is reported under its own
      URL if and only if no URL that parses comes after one that does not. */
  lemma LabelledExactly(urls: seq<Url>, cfg: FireFanOut.Config)
    requires cfg.backupUrls == Texts(urls) && TextsDecide(urls)
    ensures Labelled(Parseable(urls), cfg) <==> ParseableFirst(urls)
  {
    ParseableIn(urls);
    if ParseableFirst(urls) {
      ParseablePrefix(urls);
    } else if Labelled(Parseable(urls), cfg) {
      var m := |Parseable(urls)|;
      forall i | 0 <= i < m ensures urls[i].parses { FirstOnesParse(urls, cfg, i); }
      var i, j :| 0 <= i < j < |urls| && urls[j].parses && !urls[i].parses;
      MoreParse(urls, m, j);
      assert false;
    }
  }

  /** Where it holds, the URL reported for a wallet that the sequencer did not acknowledge is that
      of an endpoint that did. */
  lemma ReportedIsAcknowledging(urls: seq<Url>, f: FireFanOut.Fire, w: FireFanOut.Wallet, dispatch: nat,
                                results: seq<Option<FireFanOut.Attempt>>)
    requires w.backups != [] && |w.backups| == |Parseable(urls)| && FireFanOut.Raced(f, w, dispatch, results)
    requires f.cfg.backupUrls == Texts(urls) && TextsDecide(urls) && ParseableFirst(urls)
    requires !FireFanOut.SequencerAcks(w) && FireFanOut.TaskResult(f, w, dispatch, results).ackedUrl.Some?
    ensures exists i :: 0 <= i < |w.backups| && FireFanOut.Acks(w.backups[i])
                        && FireFanOut.TaskResult(f, w, dispatch, results).ackedUrl == Some(Parseable(urls)[i].text)
  {
    LabelledExactly(urls, f.cfg);
    FireFanOut.ResultMeaning(f, w, dispatch, results);
    FireFanOut.AckMeaning(f, w, dispatch, results);
  }

  /** The first URL does not parse: the one endpoint, warmed from the second, is reported under the
      first. */
  lemma MislabelledBySkipping(bad: string, good: string, cfg: FireFanOut.Config)
    requires bad != good && cfg.backupUrls == [bad, good]
    ensures var urls := [Url(bad, false), Url(good, true)];
            Texts(urls) == cfg.backupUrls && Parseable(urls) == [Url(good, true)] && FireFanOut.BackupUrl(cfg, 0) == bad
  {
    var urls := [Url(bad, false), Url(good, true)];
    assert urls[..1] == [Url(bad, false)] && urls[..1][..0] == [];
    assert Parseable([]) == [] && Parseable(urls[..1]) == [];
  }

  /** The list was replaced while armed: the endpoint warmed from the old one is reported under the
      new one's URL, though both parse. */
  lemma MislabelledByReplacing(before: string, after: string, cfg: FireFanOut.Config)
    requires before != after && cfg.backupUrls == [after]
    ensures Parseable([Url(before, true)]) == [Url(before, true)] && !Labelled([Url(before, true)], cfg)
  {
    AllParse([Url(before, true)]);
    assert FireFanOut.BackupUrl(cfg, 0) == after;
  }
}
