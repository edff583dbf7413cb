/**
 Concurrent transactions of the reservation service, one SQL statement at a time.

 Each process runs its work in one transaction — one operation, or the reservation and the
 conversion of an accepted negotiation: it reads committed rows, takes row locks (SELECT … FOR
 UPDATE waits for a free lock), and writes at COMMIT, when its locks are released; a second
 operation reads the first one's writes. A locked read sees the last committed value. An INSERT whose order already has a
 committed row violates ux_stock_reservations_commande and aborts. Any transaction may abort
 at any time: a deadlock victim, a lost connection.
 */
module Entrelacements {
  import opened Commun
  import opened Reservation
  import opened ReservationLois

  /** How far a transaction is: which locks it holds and what it has read. */
  datatype Pc =
    | Debut
    | LigneAbsenteVue            // reserver, vente directe: read without lock, no row yet
    | PublicationVerrouillee     // convertir: holds the publication
    | LigneVerrouillee           // liberer: holds its active row
    | PretReserver(lu: real)     // holds the publication, and remembers the amount it read there
    | PretConvertir(active: bool) // holds the publication, and its row when it found one (active)
    | LigneVue                   // acceptance: its order had a row already, only the conversion remains
    | Reservee(lu: real)         // acceptance: has reserved, uncommitted, and is converting its own row
    | Pret                       // holds every lock its writes need
    | Fini

  /** A transaction's work. */
  datatype Travail =
    | Un(o: Operation)
    | Acceptation(commande: nat, publication: Option<nat>, q: real)

  /** The operations of the service it runs, in order. */
  function Ops(w: Travail): seq<Operation> {
    match w
    case Un(o) => [o]
    case Acceptation(c, p, q) => [OReserver(c, p, q), OConvertir(c, p, q)]
  }

  function Effet(t: Marche, w: Travail): Marche { AppliquerTout(t, Ops(w)) }

  datatype Processus = Processus(w: Travail, pc: Pc)

  /** A lock table: which process holds the row. */
  type Verrous = map<nat, nat>

  datatype Systeme = Systeme(t: Marche, ps: seq<Processus>, pub: Verrous, ligne: Verrous, recolte: Verrous)

  predicate Libre(v: Verrous, cle: nat, i: nat) { cle !in v || v[cle] == i }

  /** End of the transaction: its locks are released. */
  function Relacher(v: Verrous, i: nat): Verrous { map k | k in v && v[k] != i :: v[k] }

  function Terminer(s: Systeme, i: nat, t: Marche): (s': Systeme)
    requires i < |s.ps|
    ensures Local(s, s', i)
  {
    Systeme(t, s.ps[i := s.ps[i].(pc := Fini)], Relacher(s.pub, i), Relacher(s.ligne, i), Relacher(s.recolte, i))
  }

  function Avancer(s: Systeme, i: nat, pc: Pc): Systeme
    requires i < |s.ps|
  {
    s.(ps := s.ps[i := s.ps[i].(pc := pc)])
  }

  predicate Tient(v: Verrous, cle: nat, i: nat) { cle in v && v[cle] == i }

  ghost predicate VerrousDesAutres(v: Verrous, v': Verrous, i: nat) {
    forall k: nat, j: nat :: j != i && Tient(v, k, j) ==> Tient(v', k, j)
  }

  /** Process i's statement leaves the other processes, and the locks they hold, alone. */
  ghost predicate Local(s: Systeme, s': Systeme, i: nat)
    requires i < |s.ps|
  {
    && |s'.ps| == |s.ps| && s'.ps == s.ps[i := s'.ps[i]] && s'.ps[i].w == s.ps[i].w
    && VerrousDesAutres(s.pub, s'.pub, i) && VerrousDesAutres(s.ligne, s'.ligne, i) && VerrousDesAutres(s.recolte, s'.recolte, i)
  }

  /** One statement of process i; a process that waits for a lock stays where it is. */
  function Pas(s: Systeme, i: nat): (s': Systeme)
    requires i < |s.ps|
    ensures Local(s, s', i) && (s.ps[i].pc == Fini ==> s' == s)
  {
    if s.ps[i].pc == Fini then s
    else match s.ps[i].w
      case Un(OReserver(c, p, q)) => PasReserver(s, i, c, p, q)
      case Un(OConvertir(c, p, q)) => PasConvertir(s, i, c, p, q)
      case Un(OVenteDirecte(c, r, q)) => PasVenteDirecte(s, i, c, r, q)
      case Un(OLiberer(c)) => PasLiberer(s, i, c)
      case Acceptation(c, p, q) => PasAccepter(s, i, c, p, q)
  }

  function PasReserver(s: Systeme, i: nat, c: nat, p: Option<nat>, q: real): (s': Systeme)
    requires i < |s.ps|
    ensures Local(s, s', i) && (s.ps[i].pc == Fini ==> s' == s)
  {
    match s.ps[i].pc
    case Debut =>
      if p.None? || q <= 0.0 || LigneDe(s.t.resas, c).Some? then Terminer(s, i, s.t) else Avancer(s, i, LigneAbsenteVue)
    case LigneAbsenteVue =>
      if p.None? || p.value >= |s.t.publications| then Terminer(s, i, s.t)
      else if !Libre(s.pub, p.value, i) then s
      else if q > s.t.publications[p.value].disponible then Terminer(s, i, s.t)
      else Avancer(s.(pub := s.pub[p.value := i]), i, PretReserver(s.t.publications[p.value].disponible))
    case PretReserver(lu) =>
      if p.None? || p.value >= |s.t.publications| || LigneDe(s.t.resas, c).Some? then Terminer(s, i, s.t)
      else
        var pub := s.t.publications[p.value];
        Terminer(s, i, s.t.(publications := s.t.publications[p.value := pub.(disponible := lu - q)],
                            resas := s.t.resas + [Resa(c, p, None, q, Active)]))
    case _ => s
  }

  function VerrouillerPublication(s: Systeme, i: nat, p: Option<nat>): (s': Systeme)
    requires i < |s.ps|
    ensures Local(s, s', i)
  {
    if p.None? || p.value >= |s.t.publications| then Terminer(s, i, s.t)
    else if !Libre(s.pub, p.value, i) then s
    else Avancer(s.(pub := s.pub[p.value := i]), i, PublicationVerrouillee)
  }

  function PasConvertir(s: Systeme, i: nat, c: nat, p: Option<nat>, q: real): (s': Systeme)
    requires i < |s.ps|
    ensures Local(s, s', i) && (s.ps[i].pc == Fini ==> s' == s)
  {
    match s.ps[i].pc
    case Debut => VerrouillerPublication(s, i, p)
    case PublicationVerrouillee =>
      var l := LigneDe(s.t.resas, c);
      if l.None? then (if q <= 0.0 then Terminer(s, i, s.t) else Avancer(s, i, PretConvertir(false)))
      else if !Libre(s.ligne, c, i) then s
      else if s.t.resas[l.value].statut != Active then Terminer(s, i, s.t)
      else Avancer(s.(ligne := s.ligne[c := i]), i, PretConvertir(true))
    case PretConvertir(active) =>
      if p.None? || p.value >= |s.t.publications| then Terminer(s, i, s.t)
      else if !active && LigneDe(s.t.resas, c).Some? then Terminer(s, i, s.t)
      else
        var r := s.t.publications[p.value].recolte;
        if r.Some? && !Libre(s.recolte, r.value, i) then s
        else Terminer(s, i, EcrireConversion(s.t, c, p.value, q))
    case _ => s
  }

  /** The acceptance of a negotiation: reserve, then convert, then COMMIT; a refusal rolls everything back. */
  function PasAccepter(s: Systeme, i: nat, c: nat, p: Option<nat>, q: real): (s': Systeme)
    requires i < |s.ps|
    ensures Local(s, s', i) && (s.ps[i].pc == Fini ==> s' == s)
  {
    match s.ps[i].pc
    case Debut =>
      if LigneDe(s.t.resas, c).Some? then Avancer(s, i, LigneVue)
      else if p.None? || q <= 0.0 then Terminer(s, i, s.t)
      else Avancer(s, i, LigneAbsenteVue)
    case LigneAbsenteVue =>
      if p.None? || p.value >= |s.t.publications| then Terminer(s, i, s.t)
      else if !Libre(s.pub, p.value, i) then s
      else if q > s.t.publications[p.value].disponible then Terminer(s, i, s.t)
      else Avancer(s.(pub := s.pub[p.value := i]), i, PretReserver(s.t.publications[p.value].disponible))
    case PretReserver(lu) =>
      if LigneDe(s.t.resas, c).Some? then Terminer(s, i, s.t) else Avancer(s, i, Reservee(lu))
    case Reservee(lu) =>
      if p.None? || p.value >= |s.t.publications| || LigneDe(s.t.resas, c).Some? then Terminer(s, i, s.t)
      else
        var pub := s.t.publications[p.value];
        if pub.recolte.Some? && !Libre(s.recolte, pub.recolte.value, i) then s
        else Terminer(s, i, Marche(s.t.publications[p.value := Epuiser(pub.(disponible := lu - q))],
                                   VendreRecolte(s.t.recoltes, pub.recolte, q),
                                   s.t.resas + [Resa(c, p, None, q, Convertie)]))
    case LigneVue => VerrouillerPublication(s, i, p)
    case _ => PasConvertir(s, i, c, p, q)
  }

  function PasVenteDirecte(s: Systeme, i: nat, c: nat, r: Option<nat>, q: real): (s': Systeme)
    requires i < |s.ps|
    ensures Local(s, s', i) && (s.ps[i].pc == Fini ==> s' == s)
  {
    match s.ps[i].pc
    case Debut =>
      if r.None? || q <= 0.0 then Terminer(s, i, s.t)
      else if LigneDe(s.t.resas, c).None? then Avancer(s, i, LigneAbsenteVue)
      else if !Libre(s.ligne, c, i) then s
      else Terminer(s, i, s.t)
    case LigneAbsenteVue =>
      if r.None? || r.value >= |s.t.recoltes| then Terminer(s, i, s.t)
      else if !Libre(s.recolte, r.value, i) then s
      else Avancer(s.(recolte := s.recolte[r.value := i]), i, Pret)
    case Pret =>
      if r.None? || r.value >= |s.t.recoltes| || LigneDe(s.t.resas, c).Some? then Terminer(s, i, s.t)
      else Terminer(s, i, EcrireVenteDirecte(s.t, c, r.value, q))
    case _ => s
  }

  function PasLiberer(s: Systeme, i: nat, c: nat): (s': Systeme)
    requires i < |s.ps|
    ensures Local(s, s', i) && (s.ps[i].pc == Fini ==> s' == s)
  {
    var l := LigneDe(s.t.resas, c);
    match s.ps[i].pc
    case Debut =>
      if l.None? then Terminer(s, i, s.t)
      else if !Libre(s.ligne, c, i) then s
      else if s.t.resas[l.value].statut != Active then Terminer(s, i, s.t)
      else Avancer(s.(ligne := s.ligne[c := i]), i, LigneVerrouillee)
    case LigneVerrouillee =>
      if l.None? || s.t.resas[l.value].publication.None? then Terminer(s, i, s.t)
      else
        var p := s.t.resas[l.value].publication.value;
        if !Libre(s.pub, p, i) then s else Avancer(s.(pub := s.pub[p := i]), i, Pret)
    case Pret => if l.None? then Terminer(s, i, s.t) else Terminer(s, i, EcrireLiberation(s.t, l.value))
    case _ => s
  }

  // ── What a process knows while it holds its locks ───────────────────────

  /** What process i has read is still true of the committed tables, because of the locks it holds. */
  ghost predicate Sait(s: Systeme, i: nat)
    requires i < |s.ps|
  {
    var pc := s.ps[i].pc;
    match s.ps[i].w
    case Un(OReserver(c, p, q)) =>
      (pc.LigneAbsenteVue? || pc.PretReserver? ==> p.Some? && q > 0.0)
      && (pc.PretReserver? ==> p.value < |s.t.publications| && Tient(s.pub, p.value, i)
                               && s.t.publications[p.value].disponible == pc.lu && q <= pc.lu)
    case Un(OConvertir(c, p, q)) =>
      (pc.PublicationVerrouillee? || pc.PretConvertir? ==> p.Some? && p.value < |s.t.publications| && Tient(s.pub, p.value, i))
      && (pc == PretConvertir(false) ==> q > 0.0)
      && (pc == PretConvertir(true) ==> Tient(s.ligne, c, i) && StatutDe(s.t, c) == Some(Active))
    case Un(OVenteDirecte(c, r, q)) =>
      (pc.LigneAbsenteVue? || pc.Pret? ==> r.Some? && q > 0.0)
      && (pc.Pret? ==> r.value < |s.t.recoltes| && Tient(s.recolte, r.value, i))
    case Un(OLiberer(c)) =>
      (pc.LigneVerrouillee? || pc.Pret? ==> Tient(s.ligne, c, i) && StatutDe(s.t, c) == Some(Active))
      && (pc.Pret? ==> Tient(s.pub, PublicationDe(s.t, c), i))
    case Acceptation(c, p, q) =>
      (pc.LigneAbsenteVue? || pc.PretReserver? || pc.Reservee? ==> p.Some? && q > 0.0)
      && (pc.PretReserver? || pc.Reservee? ==>
            p.value < |s.t.publications| && Tient(s.pub, p.value, i) && s.t.publications[p.value].disponible == pc.lu && q <= pc.lu)
      && (pc.LigneVue? || pc.PublicationVerrouillee? || pc.PretConvertir? ==> StatutDe(s.t, c).Some?)
      && (pc.PublicationVerrouillee? || pc.PretConvertir? ==> p.Some? && p.value < |s.t.publications| && Tient(s.pub, p.value, i))
      && pc != PretConvertir(false)
      && (pc == PretConvertir(true) ==> Tient(s.ligne, c, i) && StatutDe(s.t, c) == Some(Active))
  }

  /** The publication an order's row holds stock of (0 when it has none). */
  function PublicationDe(t: Marche, c: nat): nat {
    var l := LigneDe(t.resas, c);
    if l.Some? && t.resas[l.value].publication.Some? then t.resas[l.value].publication.value else 0
  }

  ghost predicate Coherent(s: Systeme) {
    Saine(s.t) && forall i :: 0 <= i < |s.ps| ==> Sait(s, i)
  }

  /** Process j's knowledge survives a change that keeps its locks and the rows it has locked. */
  lemma SavoirConserve(s: Systeme, s': Systeme, j: nat)
    requires j < |s.ps| == |s'.ps| && Sait(s, j) && s'.ps[j] == s.ps[j]
    requires |s'.t.publications| == |s.t.publications| && |s'.t.recoltes| == |s.t.recoltes|
    requires forall k: nat :: Tient(s.pub, k, j) ==> Tient(s'.pub, k, j)
    requires forall k: nat :: Tient(s.ligne, k, j) ==> Tient(s'.ligne, k, j)
    requires forall k: nat :: Tient(s.recolte, k, j) ==> Tient(s'.recolte, k, j)
    requires forall k: nat :: k < |s.t.publications| && Tient(s.pub, k, j) ==> s'.t.publications[k] == s.t.publications[k]
    requires forall c: nat :: Tient(s.ligne, c, j) && StatutDe(s.t, c) == Some(Active) ==>
      StatutDe(s'.t, c) == Some(Active) && PublicationDe(s'.t, c) == PublicationDe(s.t, c)
    requires forall c: nat :: StatutDe(s.t, c).Some? ==> StatutDe(s'.t, c).Some?
    ensures Sait(s', j)
  {
  }

  /** The commit of an acceptance is its reservation followed by its conversion. */
  lemma AccepterRaffine(s: Systeme, i: nat, c: nat, p: Option<nat>, q: real)
    requires Coherent(s) && i < |s.ps| && s.ps[i].w == Acceptation(c, p, q)
    ensures var s' := PasAccepter(s, i, c, p, q);
      s'.t == s.t || (s'.t == Effet(s.t, Acceptation(c, p, q)) && s' == Terminer(s, i, s'.t) && s.ps[i].pc != Fini)
  {
    assert Sait(s, i);
    DeuxAppels(s.t, OReserver(c, p, q), OConvertir(c, p, q));
    if s.ps[i].pc.Reservee? && LigneDe(s.t.resas, c).None? {
      var a := Appliquer(s.t, OReserver(c, p, q));
      assert a.resas == s.t.resas + [Resa(c, p, None, q, Active)];
      assert LigneDe(a.resas, c) == Some(|s.t.resas|);
      assert a.resas[|s.t.resas| := Resa(c, p, None, q, Convertie)] == s.t.resas + [Resa(c, p, None, q, Convertie)];
    }
  }

  lemma UnRaffine(s: Systeme, i: nat, o: Operation)
    requires Coherent(s) && i < |s.ps| && s.ps[i].w == Un(o)
    ensures var s' := Pas(s, i);
      s'.t == s.t || (s'.t == Appliquer(s.t, o) && s' == Terminer(s, i, s'.t) && s.ps[i].pc != Fini)
  {
    assert Sait(s, i);
  }

  /**
   Every statement of every process, whatever the others are doing, either leaves the committed
   tables alone or changes them exactly as its whole work would, run alone at that instant.
   */
  lemma PasRaffine(s: Systeme, i: nat)
    requires Coherent(s) && i < |s.ps|
    ensures var s' := Pas(s, i);
      s'.t == s.t || (s'.t == Effet(s.t, s.ps[i].w) && s' == Terminer(s, i, s'.t) && s.ps[i].pc != Fini)
  {
    match s.ps[i].w
    case Un(o) => UnRaffine(s, i, o); DeuxAppels(s.t, o, o);
    case Acceptation(c, p, q) => AccepterRaffine(s, i, c, p, q);
  }

  lemma EffetSain(t: Marche, w: Travail)
    requires Saine(t)
    ensures Saine(Effet(t, w)) && MemesLiens(t, Effet(t, w))
  {
    ToutSaine(t, Ops(w));
  }

  lemma UnPublications(s: Systeme, i: nat, k: nat)
    requires Coherent(s) && i < |s.ps| && s.ps[i].w.Un? && k < |s.t.publications| && k < |Pas(s, i).t.publications|
    ensures Pas(s, i).t.publications[k] != s.t.publications[k] ==> Tient(s.pub, k, i)
  {
    assert Sait(s, i);
  }

  lemma AccepterPublications(s: Systeme, i: nat, k: nat)
    requires Coherent(s) && i < |s.ps| && s.ps[i].w.Acceptation? && k < |s.t.publications| && k < |Pas(s, i).t.publications|
    ensures Pas(s, i).t.publications[k] != s.t.publications[k] ==> Tient(s.pub, k, i)
  {
    assert Sait(s, i);
  }

  /** A commit touches only publications its process has locked. */
  lemma CommitPublications(s: Systeme, i: nat, k: nat)
    requires Coherent(s) && i < |s.ps| && Pas(s, i).t != s.t && k < |s.t.publications|
    ensures |Pas(s, i).t.publications| == |s.t.publications| && |Pas(s, i).t.recoltes| == |s.t.recoltes|
    ensures Pas(s, i).t.publications[k] != s.t.publications[k] ==> Tient(s.pub, k, i)
  {
    PasRaffine(s, i);
    EffetSain(s.t, s.ps[i].w);
    if s.ps[i].w.Un? { UnPublications(s, i, k); } else { AccepterPublications(s, i, k); }
  }

  /** A commit changes the row of an order only when it inserts it or has it locked. */
  lemma CommitLignes(s: Systeme, i: nat, c: nat)
    requires Coherent(s) && i < |s.ps| && Pas(s, i).t != s.t
    requires StatutDe(s.t, c).Some?
    ensures StatutDe(Pas(s, i).t, c).Some?
    ensures !Tient(s.ligne, c, i) ==> StatutDe(Pas(s, i).t, c) == StatutDe(s.t, c) && PublicationDe(Pas(s, i).t, c) == PublicationDe(s.t, c)
  {
    var s' := Pas(s, i);
    var l := LigneDe(s.t.resas, c).value;
    assert Sait(s, i);
    PasRaffine(s, i);
    EffetSain(s.t, s.ps[i].w);
    LignesCommises(s, i);
    LigneStable(s'.t.resas, l, c);
  }

  /** A commit keeps every row, up to the status of one its process has locked. */
  lemma LignesCommises(s: Systeme, i: nat)
    requires Coherent(s) && i < |s.ps| && Pas(s, i).t != s.t
    ensures var s' := Pas(s, i);
      && |s.t.resas| <= |s'.t.resas|
      && forall j :: 0 <= j < |s.t.resas| ==>
           s'.t.resas[j] == s.t.resas[j].(statut := s'.t.resas[j].statut)
           && (s'.t.resas[j] != s.t.resas[j] ==> Tient(s.ligne, s.t.resas[j].commande, i))
  {
    assert Sait(s, i);
  }

  lemma CommitGarde(s: Systeme, i: nat)
    requires Coherent(s) && i < |s.ps| && Pas(s, i).t != s.t
    ensures Coherent(Pas(s, i))
  {
    var s' := Pas(s, i);
    PasRaffine(s, i);
    EffetSain(s.t, s.ps[i].w);
    forall c: nat | StatutDe(s.t, c).Some? ensures StatutDe(s'.t, c).Some? { CommitLignes(s, i, c); }
    forall j | 0 <= j < |s'.ps| ensures Sait(s', j) {
      if j != i {
        assert Sait(s, j);
        forall k: nat | k < |s.t.publications| && Tient(s.pub, k, j) ensures s'.t.publications[k] == s.t.publications[k] {
          CommitPublications(s, i, k);
        }
        forall c: nat | Tient(s.ligne, c, j) && StatutDe(s.t, c) == Some(Active)
          ensures StatutDe(s'.t, c) == Some(Active) && PublicationDe(s'.t, c) == PublicationDe(s.t, c)
        {
          CommitLignes(s, i, c);
        }
        SavoirConserve(s, s', j);
      }
    }
  }

  /** After a statement that does not commit, process i knows what it just read. */
  lemma ReserverSait(s: Systeme, i: nat, c: nat, p: Option<nat>, q: real)
    requires Coherent(s) && i < |s.ps| && s.ps[i].w == Un(OReserver(c, p, q)) && PasReserver(s, i, c, p, q).t == s.t
    ensures Sait(PasReserver(s, i, c, p, q), i)
  {
    assert Sait(s, i);
  }

  lemma ConvertirSait(s: Systeme, i: nat, c: nat, p: Option<nat>, q: real)
    requires Coherent(s) && i < |s.ps| && s.ps[i].w == Un(OConvertir(c, p, q)) && PasConvertir(s, i, c, p, q).t == s.t
    ensures Sait(PasConvertir(s, i, c, p, q), i)
  {
    assert Sait(s, i);
  }

  lemma VenteDirecteSait(s: Systeme, i: nat, c: nat, r: Option<nat>, q: real)
    requires Coherent(s) && i < |s.ps| && s.ps[i].w == Un(OVenteDirecte(c, r, q)) && PasVenteDirecte(s, i, c, r, q).t == s.t
    ensures Sait(PasVenteDirecte(s, i, c, r, q), i)
  {
    assert Sait(s, i);
  }

  lemma LibererSait(s: Systeme, i: nat, c: nat)
    requires Coherent(s) && i < |s.ps| && s.ps[i].w == Un(OLiberer(c)) && PasLiberer(s, i, c).t == s.t
    ensures Sait(PasLiberer(s, i, c), i)
  {
    assert Sait(s, i);
  }

  lemma AccepterSait(s: Systeme, i: nat, c: nat, p: Option<nat>, q: real)
    requires Coherent(s) && i < |s.ps| && s.ps[i].w == Acceptation(c, p, q) && PasAccepter(s, i, c, p, q).t == s.t
    ensures Sait(PasAccepter(s, i, c, p, q), i)
  {
    assert Sait(s, i);
  }

  lemma LectureSait(s: Systeme, i: nat)
    requires Coherent(s) && i < |s.ps| && Pas(s, i).t == s.t
    ensures Sait(Pas(s, i), i)
  {
    assert Sait(s, i);
    if s.ps[i].pc != Fini {
      match s.ps[i].w
      case Un(OReserver(c, p, q)) => ReserverSait(s, i, c, p, q);
      case Un(OConvertir(c, p, q)) => ConvertirSait(s, i, c, p, q);
      case Un(OVenteDirecte(c, r, q)) => VenteDirecteSait(s, i, c, r, q);
      case Un(OLiberer(c)) => LibererSait(s, i, c);
      case Acceptation(c, p, q) => AccepterSait(s, i, c, p, q);
    }
  }

  /** Mutual exclusion keeps everyone's knowledge true, in every reachable state of every interleaving. */
  lemma PasGarde(s: Systeme, i: nat)
    requires Coherent(s) && i < |s.ps|
    ensures Coherent(Pas(s, i)) && |Pas(s, i).ps| == |s.ps|
  {
    if Pas(s, i).t != s.t { CommitGarde(s, i); }
    else {
      forall j | 0 <= j < |s.ps| ensures Sait(Pas(s, i), j) {
        if j == i { LectureSait(s, i); } else { SavoirConserve(s, Pas(s, i), j); }
      }
    }
  }

  // ── Whole schedules ─────────────────────────────────────────────────────

  /** One move of the database: a process executes its next statement, or is aborted. */
  datatype Coup = Execute(i: nat) | Avorte(i: nat)

  function Jouer(s: Systeme, c: Coup): (s': Systeme)
    ensures c.i < |s.ps| ==> Local(s, s', c.i)
    ensures c.i >= |s.ps| ==> s' == s
  {
    if c.i >= |s.ps| then s
    else match c
      case Execute(i) => Pas(s, i)
      case Avorte(i) => if s.ps[i].pc == Fini then s else Terminer(s, i, s.t)
  }

  function JouerTout(s: Systeme, cs: seq<Coup>): Systeme {
    if cs == [] then s else Jouer(JouerTout(s, cs[..|cs| - 1]), cs[|cs| - 1])
  }

  lemma JouerGarde(s: Systeme, c: Coup)
    requires Coherent(s)
    ensures Coherent(Jouer(s, c)) && |Jouer(s, c).ps| == |s.ps|
  {
    if c.i < |s.ps| {
      PasGarde(s, c.i);
      if c.Avorte? {
        forall j | 0 <= j < |s.ps| && j != c.i ensures Sait(Jouer(s, c), j) {
          assert Sait(s, j);
          SavoirConserve(s, Jouer(s, c), j);
        }
      }
    }
  }

  /** The processes that changed the tables, in the order they committed. */
  function Commits(s: Systeme, cs: seq<Coup>): seq<nat> {
    if cs == [] then []
    else
      var a := JouerTout(s, cs[..|cs| - 1]);
      Commits(s, cs[..|cs| - 1]) + if Jouer(a, cs[|cs| - 1]).t != a.t then [cs[|cs| - 1].i] else []
  }

  /** The operations processes ids[0], ids[1], … run, in that order. */
  function Operations(ps: seq<Processus>, ids: seq<nat>): seq<Operation>
    requires forall k :: 0 <= k < |ids| ==> ids[k] < |ps|
  {
    if ids == [] then [] else Operations(ps, ids[..|ids| - 1]) + Ops(ps[ids[|ids| - 1]].w)
  }

  /** s' has the tables the processes `ids`, each finished and each once, give when run one after the other from s. */
  ghost predicate EnSerie(s: Systeme, s': Systeme, ids: seq<nat>) {
    && Coherent(s') && |s'.ps| == |s.ps|
    && (forall j :: 0 <= j < |s.ps| ==> s'.ps[j].w == s.ps[j].w)
    && (forall k :: 0 <= k < |ids| ==> ids[k] < |s.ps| && s'.ps[ids[k]].pc == Fini)
    && (forall k, l :: 0 <= k < l < |ids| ==> ids[k] != ids[l])
    && s'.t == AppliquerTout(s.t, Operations(s.ps, ids))
  }

  lemma UnCommitDePlus(s: Systeme, a: Systeme, ids: seq<nat>, c: Coup)
    requires EnSerie(s, a, ids) && Jouer(a, c).t != a.t
    ensures EnSerie(s, Jouer(a, c), ids + [c.i])
  {
    JouerGarde(a, c);
    OperationsFixes(a, c);
    PasRaffine(a, c.i);
    assert (ids + [c.i])[..|ids|] == ids;
    ToutConcat(s.t, Operations(s.ps, ids), Ops(s.ps[c.i].w));
  }

  /**
   Serializability: whatever the interleaving of statements, lock waits and aborts, the committed
   tables are those of the work of the processes that committed, run one after the other in
   commit order — each process at most once. So every law of sequential runs holds of the committed tables.
   */
  lemma {:induction false} Serialisable(s: Systeme, cs: seq<Coup>)
    requires Coherent(s)
    ensures EnSerie(s, JouerTout(s, cs), Commits(s, cs))
  {
    if cs == [] {
      assert Operations(s.ps, []) == [];
    } else {
      var cs0, c := cs[..|cs| - 1], cs[|cs| - 1];
      Serialisable(s, cs0);
      var a := JouerTout(s, cs0);
      if Jouer(a, c).t != a.t {
        UnCommitDePlus(s, a, Commits(s, cs0), c);
      } else {
        assert Commits(s, cs) == Commits(s, cs0);
        JouerGarde(a, c);
        OperationsFixes(a, c);
      }
    }
  }

  /** A finished process stays finished, and no process changes its work. */
  lemma OperationsFixes(s: Systeme, c: Coup)
    ensures |Jouer(s, c).ps| == |s.ps|
    ensures forall j :: 0 <= j < |s.ps| ==> Jouer(s, c).ps[j].w == s.ps[j].w
    ensures forall j :: 0 <= j < |s.ps| && s.ps[j].pc == Fini ==> Jouer(s, c).ps[j].pc == Fini
  {
    if c.i < |s.ps| { assert Local(s, Jouer(s, c), c.i); }
  }

  /** Hence conservation, and no negative stock, in the committed tables of every interleaving. */
  lemma ConservationEntrelacee(s: Systeme, cs: seq<Coup>, p: nat)
    requires Coherent(s) && p < |s.t.publications|
    ensures var (t, ids) := (JouerTout(s, cs).t, Commits(s, cs));
      && |t.publications| == |s.t.publications| && t.publications[p].disponible >= 0.0
      && (forall k :: 0 <= k < |ids| ==> ids[k] < |s.ps|)
      && Masse(t, p) == Masse(s.t, p) + Manques(s.t, Operations(s.ps, ids), p)
  {
    Serialisable(s, cs);
    ConservationTout(s.t, Operations(s.ps, Commits(s, cs)), p);
  }

  /**
   Deadlocks are possible: convertir takes the publication then the row, liberer the row then
   the publication. From any tables with an active row, two steps bring them to a state where
   neither can move — until one of them is aborted.
   */
  lemma InterblocagePossible(t: Marche, c: nat, q: real)
    requires Saine(t) && StatutDe(t, c) == Some(Active)
    ensures var p := PublicationDe(t, c);
      var depart := Systeme(t, [Processus(Un(OConvertir(c, Some(p), q)), Debut), Processus(Un(OLiberer(c)), Debut)], map[], map[], map[]);
      var s := JouerTout(depart, [Execute(0), Execute(1)]);
      && |s.ps| == 2 && Pas(s, 0) == s && Pas(s, 1) == s && s.ps[0].pc != Fini && s.ps[1].pc != Fini
  {
    var p := PublicationDe(t, c);
    var depart := Systeme(t, [Processus(Un(OConvertir(c, Some(p), q)), Debut), Processus(Un(OLiberer(c)), Debut)], map[], map[], map[]);
    assert JouerTout(depart, []) == depart;
    assert [Execute(0), Execute(1)][..1] == [Execute(0)] && [Execute(0)][..0] == [];
    assert JouerTout(depart, [Execute(0)]) == Pas(depart, 0);
    assert JouerTout(depart, [Execute(0), Execute(1)]) == Pas(Pas(depart, 0), 1);
  }
}
