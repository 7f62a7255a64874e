/**
 * The page's global state and its handlers (static/chart.js:396-470): the
 * `warnOnExit` flag that makes leaving the page ask for confirmation, the
 * action form that clears it around its own requests, and the entry form
 * that keeps the last entered date across submissions.
 *
 * Requests to the server, alerts and navigation are recorded, not
 * performed: each is logged with the value `warnOnExit` had when it was
 * issued.
 */
module Session {
  import opened Wrappers

  /** The tables and the chart the page can reload. */
  datatype View = EntryTables | BalanceTable | MoneyChart

  /** The fields of the entry form. */
  datatype EntryForm = EntryForm(date: string, amount: string, description: string, category: string)

  /** What a handler asks of the browser. */
  datatype Request =
    | Fetch(path: string)
    | Submit(form: EntryForm)
    | Navigate(path: string)
    | Alert(message: string)
    | Reload(view: View)
    | Delete(id: int)
    | Update(id: int, form: EntryForm, accepted: bool)

  /** A request and whether leaving the page was guarded when it was issued. */
  datatype Issued = Issued(request: Request, guarded: bool)

  /** The requests of the action form's buttons, by button id (static/chart.js:414-426). */
  function ActionRequests(button: string): seq<Request> {
    if button == "save" then [Fetch("/save"), Alert("Sauvegarde effectuée.")]
    else if button == "logout" then [Navigate("/logout")]
    else if button == "local_copy" then [Navigate("/local_copy"), Alert("Copie locale enregistrée.")]
    else []
  }

  /**
   * Whether the action form's handler runs to its end: it throws when the
   * form was submitted without a button (`e.submitter` is null) and when
   * the `/save` request is rejected (static/chart.js:412-417).
   */
  predicate ActionCompletes(submitter: Option<string>, fetched: bool) {
    submitter.Some? && (submitter.value == "save" ==> fetched)
  }

  /** The requests the action form's handler issues before it ends or throws. */
  function ActionIssued(submitter: Option<string>, fetched: bool): seq<Request> {
    if submitter.None? then []
    else if submitter.value == "save" && !fetched then [Fetch("/save")]
    else ActionRequests(submitter.value)
  }

  /**
   * A handler that throws issues a prefix of the button's requests, and
   * never its alert: the user is not told the save happened.
   */
  lemma ThrownActionIsPrefix(submitter: Option<string>, fetched: bool)
    requires !ActionCompletes(submitter, fetched)
    ensures submitter.Some? ==> ActionIssued(submitter, fetched) <= ActionRequests(submitter.value)
    ensures forall r :: r in ActionIssued(submitter, fetched) ==> !r.Alert?
  {
  }

  /** The alert a refused update raises (static/chart.js:387). */
  const UpdateError := "Erreur lors de la mise à jour."

  /** The same requests, issued while leaving the page is not guarded. */
  function Unguarded(rs: seq<Request>): (issued: seq<Issued>)
    ensures |issued| == |rs|
    ensures forall i :: 0 <= i < |rs| ==> issued[i] == Issued(rs[i], false)
  {
    if |rs| == 0 then [] else [Issued(rs[0], false)] + Unguarded(rs[1..])
  }

  /** Whether a request changes the stored entries: a submission, a deletion, an accepted update. */
  predicate Changes(r: Request) {
    r.Submit? || r.Delete? || (r.Update? && r.accepted)
  }

  /**
   * The views that have not been reloaded since the stored entries last
   * changed: they still show the entries as they were before the change.
   */
  function Stale(log: seq<Issued>): set<View> {
    if |log| == 0 then {}
    else
      var r := log[|log| - 1].request;
      if Changes(r) then {EntryTables, BalanceTable, MoneyChart}
      else if r.Reload? then Stale(log[..|log| - 1]) - {r.view}
      else Stale(log[..|log| - 1])
  }

  /** The reloads of `views`, in order. */
  function Reloads(views: seq<View>, g: bool): (log: seq<Issued>)
    ensures |log| == |views|
  {
    if |views| == 0 then [] else [Issued(Reload(views[0]), g)] + Reloads(views[1..], g)
  }

  /** Every view. */
  const AllViews: set<View> := {EntryTables, BalanceTable, MoneyChart}

  /** What is stale right after `change`, before any reload. */
  function StaleFrom(log: seq<Issued>, change: Issued): set<View> {
    if Changes(change.request) then AllViews
    else if change.request.Reload? then Stale(log) - {change.request.view}
    else Stale(log)
  }

  /**
   * After a request, reloading `views` leaves stale what the request left
   * stale, less the reloaded views: after a change, exactly the views that
   * are not reloaded.
   */
  lemma {:induction false} StaleAfter(log: seq<Issued>, change: Issued, views: seq<View>, g: bool)
    ensures Stale(log + [change] + Reloads(views, g)) == StaleFrom(log, change) - set v | v in views
    decreases |views|
  {
    var l1 := log + [change];
    assert l1[..|l1| - 1] == log;
    assert Stale(l1) == StaleFrom(log, change);
    if |views| == 0 {
      assert l1 + Reloads(views, g) == l1;
      assert (set v | v in views) == {};
    } else {
      var init := views[..|views| - 1];
      var last := views[|views| - 1];
      StaleAfter(log, change, init, g);
      ReloadsSnoc(init, last, g);
      assert views == init + [last];
      var l := l1 + Reloads(init, g) + [Issued(Reload(last), g)];
      assert l1 + Reloads(views, g) == l;
      assert l[..|l| - 1] == l1 + Reloads(init, g);
      assert Stale(l) == Stale(l1 + Reloads(init, g)) - {last};
      assert (set v | v in views) == (set v | v in init) + {last};
    }
  }

  /** Reloading every view after a change leaves none stale. */
  lemma ReloadAllFresh(log: seq<Issued>, change: Issued, g: bool)
    requires Changes(change.request)
    ensures Stale(log + [change] + Reloads([EntryTables, BalanceTable, MoneyChart], g)) == {}
  {
    StaleAfter(log, change, [EntryTables, BalanceTable, MoneyChart], g);
    assert AllViews <= set v | v in [EntryTables, BalanceTable, MoneyChart];
  }

  /** The reload lists the handlers issue. */
  lemma ReloadLists(g: bool)
    ensures Reloads([EntryTables, MoneyChart], g) == [Issued(Reload(EntryTables), g), Issued(Reload(MoneyChart), g)]
    ensures Reloads([EntryTables, BalanceTable, MoneyChart], g) ==
            [Issued(Reload(EntryTables), g), Issued(Reload(BalanceTable), g), Issued(Reload(MoneyChart), g)]
  {
    assert [EntryTables, MoneyChart][1..] == [MoneyChart] && [MoneyChart][1..] == [];
    assert [EntryTables, BalanceTable, MoneyChart][1..] == [BalanceTable, MoneyChart] && [BalanceTable, MoneyChart][1..] == [MoneyChart];
  }

  lemma {:induction false} ReloadsSnoc(views: seq<View>, v: View, g: bool)
    ensures Reloads(views + [v], g) == Reloads(views, g) + [Issued(Reload(v), g)]
  {
    if |views| > 0 {
      ReloadsSnoc(views[1..], v, g);
      assert (views + [v])[1..] == views[1..] + [v];
    }
  }

  class Page {
    /** `warnOnExit` (static/chart.js:397). */
    var warnOnExit: bool
    /** `lastEnteredDate` (static/chart.js:396). */
    var lastEnteredDate: string
    /** The current values of the entry form's fields. */
    var form: EntryForm
    /** The values `entry_form.reset()` restores. */
    const defaults: EntryForm
    /** Every request issued so far, in order. */
    var issued: seq<Issued>

    /**
     * Loading the page (static/chart.js:396-397, 399-465): `lastEnteredDate`
     * is today's date, `warnOnExit` is set, the date field shows
     * `lastEnteredDate` and the tables and the chart are loaded.
     */
    constructor (today: string, defaults: EntryForm)
      ensures warnOnExit && lastEnteredDate == today && BlocksUnload()
      ensures this.defaults == defaults && form == defaults.(date := today)
      ensures issued == [Issued(Reload(EntryTables), true), Issued(Reload(BalanceTable), true), Issued(Reload(MoneyChart), true)]
      ensures Stale(issued) == {}
    {
      warnOnExit := true;
      lastEnteredDate := today;
      this.defaults := defaults;
      form := defaults.(date := today);
      var log := [Issued(Reload(EntryTables), true), Issued(Reload(BalanceTable), true), Issued(Reload(MoneyChart), true)];
      var l1, l2 := log[..1], log[..2];
      assert l1[..0] == [] && l2[..1] == l1 && log[..2] == l2;
      assert Stale(l1) == {};
      assert Stale(l2) == Stale(l1) - {BalanceTable};
      issued := log;
    }

    /** The `beforeunload` handler asks before leaving exactly while `warnOnExit` holds (static/chart.js:467-470). */
    predicate BlocksUnload(): (asks: bool)
      reads this
      ensures asks <==> warnOnExit
    {
      warnOnExit
    }

    /** Logs a request with the current value of `warnOnExit`. */
    method Issue(request: Request)
      modifies this
      ensures issued == old(issued) + [Issued(request, old(warnOnExit))]
      ensures warnOnExit == old(warnOnExit) && lastEnteredDate == old(lastEnteredDate) && form == old(form)
    {
      issued := issued + [Issued(request, warnOnExit)];
    }

    /**
     * The action form's handler (static/chart.js:407-429): `warnOnExit` is
     * cleared, the clicked button's requests are issued, and `warnOnExit` is
     * set again. Every request of the handler is issued unguarded. When the
     * handler throws -- no submitting button, or a rejected `/save` request
     * -- it stops where it throws and `warnOnExit` stays cleared.
     */
    method SubmitAction(submitter: Option<string>, fetched: bool)
      modifies this
      ensures issued == old(issued) + Unguarded(ActionIssued(submitter, fetched))
      ensures warnOnExit == ActionCompletes(submitter, fetched)
      ensures BlocksUnload() <==> ActionCompletes(submitter, fetched)
      ensures lastEnteredDate == old(lastEnteredDate) && form == old(form)
    {
      warnOnExit := false;
      if submitter.None? {
        return;
      }
      var button := submitter.value;
      if button == "save" {
        Issue(Fetch("/save"));
        if !fetched {
          return;
        }
        Issue(Alert("Sauvegarde effectuée."));
      } else if button == "logout" {
        Issue(Navigate("/logout"));
      } else if button == "local_copy" {
        Issue(Navigate("/local_copy"));
        Issue(Alert("Copie locale enregistrée."));
      }
      warnOnExit := true;
    }

    /**
     * The entry form's handler (static/chart.js:437-457): the date field's
     * value becomes `lastEnteredDate` and the form is sent. Once the request
     * resolves, the form is reset to its defaults but the date field gets
     * `lastEnteredDate` back, and the tables and the chart are reloaded. A
     * rejected request throws before the reset, leaving every view stale.
     */
    method SubmitEntry(fetched: bool)
      modifies this
      ensures lastEnteredDate == old(form.date)
      ensures warnOnExit == old(warnOnExit)
      ensures fetched ==> form == defaults.(date := old(form.date))
      ensures fetched ==> issued == old(issued) + [Issued(Submit(old(form)), warnOnExit), Issued(Reload(EntryTables), warnOnExit),
                                                   Issued(Reload(BalanceTable), warnOnExit), Issued(Reload(MoneyChart), warnOnExit)]
      ensures fetched ==> Stale(issued) == {}
      ensures !fetched ==> form == old(form) && issued == old(issued) + [Issued(Submit(old(form)), warnOnExit)]
      ensures !fetched ==> Stale(issued) == AllViews
    {
      lastEnteredDate := form.date;
      Issue(Submit(form));
      if !fetched {
        return;
      }
      form := defaults;
      form := form.(date := lastEnteredDate);
      Issue(Reload(EntryTables));
      Issue(Reload(BalanceTable));
      Issue(Reload(MoneyChart));
      ReloadLists(warnOnExit);
      assert issued == old(issued) + [Issued(Submit(old(form)), warnOnExit)] + Reloads([EntryTables, BalanceTable, MoneyChart], warnOnExit);
      ReloadAllFresh(old(issued), Issued(Submit(old(form)), warnOnExit), warnOnExit);
    }

    /**
     * `deleteEntry` as written (static/chart.js:302-312): after the user
     * confirms, the entry is deleted and the entry tables and the chart are
     * reloaded, but not the monthly balance, which keeps the old totals.
     */
    method DeleteEntryAsWritten(id: int, confirmed: bool)
      modifies this
      ensures !confirmed ==> issued == old(issued)
      ensures confirmed ==> issued == old(issued) + [Issued(Delete(id), warnOnExit), Issued(Reload(EntryTables), warnOnExit),
                                                     Issued(Reload(MoneyChart), warnOnExit)]
      ensures confirmed ==> Stale(issued) == {BalanceTable}
      ensures warnOnExit == old(warnOnExit) && lastEnteredDate == old(lastEnteredDate) && form == old(form)
    {
      if !confirmed {
        return;
      }
      Issue(Delete(id));
      Issue(Reload(EntryTables));
      Issue(Reload(MoneyChart));
      ReloadLists(warnOnExit);
      assert issued == old(issued) + [Issued(Delete(id), warnOnExit)] + Reloads([EntryTables, MoneyChart], warnOnExit);
      StaleAfter(old(issued), Issued(Delete(id), warnOnExit), [EntryTables, MoneyChart], warnOnExit);
      assert AllViews - (set v | v in [EntryTables, MoneyChart]) == {BalanceTable};
    }

    /** `deleteEntry` reloading every view the deletion affects, as the entry form does after a submission. */
    method DeleteEntry(id: int, confirmed: bool)
      modifies this
      ensures !confirmed ==> issued == old(issued)
      ensures confirmed ==> issued == old(issued) + [Issued(Delete(id), warnOnExit), Issued(Reload(EntryTables), warnOnExit),
                                                     Issued(Reload(BalanceTable), warnOnExit), Issued(Reload(MoneyChart), warnOnExit)]
      ensures confirmed ==> Stale(issued) == {}
      ensures warnOnExit == old(warnOnExit) && lastEnteredDate == old(lastEnteredDate) && form == old(form)
    {
      if !confirmed {
        return;
      }
      Issue(Delete(id));
      Issue(Reload(EntryTables));
      Issue(Reload(BalanceTable));
      Issue(Reload(MoneyChart));
      ReloadLists(warnOnExit);
      assert issued == old(issued) + [Issued(Delete(id), warnOnExit)] + Reloads([EntryTables, BalanceTable, MoneyChart], warnOnExit);
      ReloadAllFresh(old(issued), Issued(Delete(id), warnOnExit), warnOnExit);
    }

    /**
     * `saveEditEntry` as written (static/chart.js:377-393): a refused update
     * only raises an alert; an accepted one reloads the entry tables and the
     * chart, but not the monthly balance.
     */
    method SaveEditAsWritten(id: int, edited: EntryForm, accepted: bool)
      modifies this
      ensures !accepted ==> issued == old(issued) + [Issued(Update(id, edited, false), warnOnExit), Issued(Alert(UpdateError), warnOnExit)]
      ensures !accepted ==> Stale(issued) == Stale(old(issued))
      ensures accepted ==> issued == old(issued) + [Issued(Update(id, edited, true), warnOnExit), Issued(Reload(EntryTables), warnOnExit),
                                                    Issued(Reload(MoneyChart), warnOnExit)]
      ensures accepted ==> Stale(issued) == {BalanceTable}
      ensures warnOnExit == old(warnOnExit) && lastEnteredDate == old(lastEnteredDate) && form == old(form)
    {
      Issue(Update(id, edited, accepted));
      if !accepted {
        Issue(Alert(UpdateError));
        ghost var updated := old(issued) + [Issued(Update(id, edited, accepted), warnOnExit)];
        assert updated[..|updated| - 1] == old(issued);
        assert issued[..|issued| - 1] == updated;
        return;
      }
      Issue(Reload(EntryTables));
      Issue(Reload(MoneyChart));
      ReloadLists(warnOnExit);
      assert issued == old(issued) + [Issued(Update(id, edited, accepted), warnOnExit)] + Reloads([EntryTables, MoneyChart], warnOnExit);
      StaleAfter(old(issued), Issued(Update(id, edited, accepted), warnOnExit), [EntryTables, MoneyChart], warnOnExit);
      assert AllViews - (set v | v in [EntryTables, MoneyChart]) == {BalanceTable};
    }

    /** `saveEditEntry` reloading every view an accepted update affects. */
    method SaveEdit(id: int, edited: EntryForm, accepted: bool)
      modifies this
      ensures !accepted ==> issued == old(issued) + [Issued(Update(id, edited, false), warnOnExit), Issued(Alert(UpdateError), warnOnExit)]
      ensures !accepted ==> Stale(issued) == Stale(old(issued))
      ensures accepted ==> issued == old(issued) + [Issued(Update(id, edited, true), warnOnExit), Issued(Reload(EntryTables), warnOnExit),
                                                    Issued(Reload(BalanceTable), warnOnExit), Issued(Reload(MoneyChart), warnOnExit)]
      ensures accepted ==> Stale(issued) == {}
      ensures warnOnExit == old(warnOnExit) && lastEnteredDate == old(lastEnteredDate) && form == old(form)
    {
      Issue(Update(id, edited, accepted));
      if !accepted {
        Issue(Alert(UpdateError));
        ghost var updated := old(issued) + [Issued(Update(id, edited, accepted), warnOnExit)];
        assert updated[..|updated| - 1] == old(issued);
        assert issued[..|issued| - 1] == updated;
        return;
      }
      Issue(Reload(EntryTables));
      Issue(Reload(BalanceTable));
      Issue(Reload(MoneyChart));
      ReloadLists(warnOnExit);
      assert issued == old(issued) + [Issued(Update(id, edited, accepted), warnOnExit)] + Reloads([EntryTables, BalanceTable, MoneyChart], warnOnExit);
      ReloadAllFresh(old(issued), Issued(Update(id, edited, accepted), warnOnExit), warnOnExit);
    }
  }
}
