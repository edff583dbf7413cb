/** The float journal replays the float of every day. */
module FondLois {
  import opened Commun
  import opened Tables
  import opened Caisse
  import ConstatLois

  /** The journal of one day, in order. */
  function JournalDe(js: seq<LigneFond>, cle: CleSession): seq<LigneFond> {
    if js == [] then []
    else JournalDe(js[..|js| - 1], cle) + if js[|js| - 1].session == cle then [js[|js| - 1]] else []
  }

  lemma JournalAjout(js: seq<LigneFond>, l: LigneFond, cle: CleSession)
    ensures JournalDe(js + [l], cle) == JournalDe(js, cle) + if l.session == cle then [l] else []
  {
    assert (js + [l])[..|js|] == js;
  }

  /**
   One declaration first, then corrections only, each starting from the float the previous
   entry left; the last entry is the current float. An undeclared day has float 0 and no entry.
   */
  ghost predicate FondJuste(s: Etat, cle: CleSession) {
    var j := JournalDe(s.journal, cle);
    if cle !in s.sessions then j == []
    else if s.sessions[cle].declareLe.None? then j == [] && s.sessions[cle].fond == 0.0
    else
      && j != []
      && j[0].origine == Declaration && (j[0].ancien == None || j[0].ancien == Some(0.0))
      && (forall k :: 1 <= k < |j| ==> j[k].origine == Correction && j[k].ancien == Some(j[k - 1].nouveau))
      && j[|j| - 1].nouveau == s.sessions[cle].fond
  }

  ghost predicate LoiFond(s: Etat) { forall cle: CleSession :: FondJuste(s, cle) }

  /** A request that writes no journal row keeps floats and declarations, but for days it opens undeclared. */
  lemma SansJournal(s: Etat, s': Etat)
    requires LoiFond(s) && s'.journal == s.journal
    requires forall cle: CleSession :: cle in s.sessions ==>
      cle in s'.sessions && s'.sessions[cle].fond == s.sessions[cle].fond && s'.sessions[cle].declareLe == s.sessions[cle].declareLe
    requires forall cle: CleSession :: cle in s'.sessions && cle !in s.sessions ==>
      s'.sessions[cle].declareLe == None && s'.sessions[cle].fond == 0.0
    ensures LoiFond(s')
  {
    forall cle: CleSession ensures FondJuste(s', cle) { assert FondJuste(s, cle); }
  }

  /** A request that writes one journal row on one day. */
  lemma AvecJournal(s: Etat, s': Etat, cle0: CleSession, l: LigneFond)
    requires LoiFond(s) && s'.journal == s.journal + [l] && l.session == cle0
    requires forall cle: CleSession :: cle != cle0 ==>
      (cle in s.sessions <==> cle in s'.sessions) && (cle in s.sessions ==> s'.sessions[cle] == s.sessions[cle])
    requires cle0 in s'.sessions && s'.sessions[cle0].declareLe.Some? && s'.sessions[cle0].fond == l.nouveau
    requires l.origine == (if cle0 in s.sessions && s.sessions[cle0].declareLe.Some? then Correction else Declaration)
    requires l.ancien == (if cle0 in s.sessions then Some(s.sessions[cle0].fond) else None)
    ensures LoiFond(s')
  {
    forall cle: CleSession ensures FondJuste(s', cle) {
      assert FondJuste(s, cle);
      JournalAjout(s.journal, l, cle);
    }
  }

  lemma OuvrirFond(s: Etat, m: Marchand, f: Option<real>, t: int)
    requires LoiFond(s)
    ensures LoiFond(Ouvrir(s, m, f, t).0)
  {
    var s', cle := Ouvrir(s, m, f, t).0, (m, Jour(t));
    if |s'.journal| > |s.journal| { AvecJournal(s, s', cle, s'.journal[|s.journal|]); }
    else { SansJournal(s, s'); }
  }

  lemma CorrigerGardeFond(s: Etat, m: Marchand, f: Option<real>, t: int)
    requires LoiFond(s)
    ensures LoiFond(CorrigerFond(s, m, f, t).0)
  {
    var s', cle := CorrigerFond(s, m, f, t).0, (m, Jour(t));
    if |s'.journal| > |s.journal| { AvecJournal(s, s', cle, s'.journal[|s.journal|]); }
  }

  lemma VenteGardeFond(s: Etat, m: Marchand, d: DemandeVente, t: int)
    requires LoiFond(s)
    ensures LoiFond(EnregistrerVente(s, m, d, t).0)
  {
    if ConstatLois.VenteAcceptee(s, m, d, t) {
      var e := Ecriture(m, Vente, d.montant.n, Validee, InstantDe(d.date, t), d.cle);
      ConstatLois.LignesGardentEcritures(AssurerSession(s, (m, Jour(t))).(ecritures := s.ecritures + [e]), m, |s.ecritures|, LignesVendues(d));
    }
    SansJournal(s, EnregistrerVente(s, m, d, t).0);
  }

  /** Requests that leave the day sessions and their journal as they were. */
  lemma HorsSessions(s: Etat, r: Requete)
    requires r.REcriture? || r.RAnnuler? || r.RStatut? || r.RCredit? || r.RPayer? || r.RAcompte? || SurProduits(r)
    ensures Etape(s, r).journal == s.journal && Etape(s, r).sessions == s.sessions
  {
  }

  lemma AutresGardentFond(s: Etat, r: Requete)
    requires LoiFond(s) && (r.RDepense? || r.RFermer?)
    ensures LoiFond(Etape(s, r))
  {
    SansJournal(s, Etape(s, r));
  }

  lemma EtapeFond(s: Etat, r: Requete)
    requires LoiFond(s)
    ensures LoiFond(Etape(s, r))
  {
    match r
    case RVente(m, d, t) => VenteGardeFond(s, m, d, t);
    case ROuvrir(m, f, t) => OuvrirFond(s, m, f, t);
    case RFond(m, f, t) => CorrigerGardeFond(s, m, f, t);
    case _ =>
      if r.RDepense? || r.RFermer? { AutresGardentFond(s, r); }
      else { HorsSessions(s, r); SansJournal(s, Etape(s, r)); }
  }

  /** Over every run the journal of every day replays its float. */
  lemma {:induction false} RunFond(s: Etat, rs: seq<Requete>)
    requires LoiFond(s)
    ensures LoiFond(Executer(s, rs))
  {
    if rs != [] {
      RunFond(s, rs[..|rs| - 1]);
      EtapeFond(Executer(s, rs[..|rs| - 1]), rs[|rs| - 1]);
    }
  }
}
