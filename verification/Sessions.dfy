/** The session map and the key buffers it owns. */
module Sessions {
  import opened Common
  import opened Memory

  const MINUTE := 60_000_000_000
  const PENDING_TTL := 2 * MINUTE

  /** One login. A null key marks a session of the login form; a pending one holds
      its key but still owes its code. */
  class Session {
    var id: string
    var dek: array?<byte>
    var csrf: string
    var pending: bool
    var created: int
    var lastSeen: int

    constructor (id: string, dek: array?<byte>, csrf: string, pending: bool, now: int)
      ensures this.id == id && this.dek == dek && this.csrf == csrf && this.pending == pending
      ensures created == now && lastSeen == now
    {
      this.id, this.dek, this.csrf, this.pending := id, dek, csrf, pending;
      created, lastSeen := now, now;
    }

    method Renew(id: string, csrf: string, now: int)
      modifies this
      ensures dek == old(dek) && this.id == id && this.csrf == csrf && !pending && created == now && lastSeen == now
    {
      this.id, this.csrf, pending, created, lastSeen := id, csrf, false, now, now;
    }

    /** Scrubs the key held and takes another. */
    method SwapKey(dek: array<byte>)
      requires dek != this.dek
      modifies `dek, this.dek
      ensures this.dek == dek && (old(this.dek) != null ==> IsZero(old(this.dek)))
    {
      if this.dek != null {
        Zero(this.dek);
      }
      this.dek := dek;
    }

    ghost function AsView(): View
      reads this, dek
    {
      Sess(if dek == null then None else Some(dek[..]), csrf, pending, created, lastSeen)
    }

    ghost predicate Shows(v: View)
      reads this, dek
    {
      AsView() == v
    }

    predicate Unlocked()
      reads this
    {
      dek != null && !pending
    }
  }

  /** A session as a value: its key is the content of its buffer. */
  datatype View = Sess(dek: Option<Bytes>, csrf: string, pending: bool, created: int, lastSeen: int) {
    predicate Unlocked() {
      dek.Some? && !pending
    }

    predicate Expired(idle: int, max: int, now: int) {
      if pending then now - created > PENDING_TTL
      else now - lastSeen > idle || now - created > max
    }
  }

  // ---- the operations on values ----

  type Views = map<string, View>

  function Put(v: Views, id: string, dek: Option<Bytes>, csrf: string, pending: bool, now: int): Views {
    v[id := Sess(dek, csrf, pending, now, now)]
  }

  function Look(v: Views, idle: int, max: int, id: string, now: int): Option<View> {
    if id == "" || id !in v || v[id].Expired(idle, max, now) then None
    else Some(if v[id].pending then v[id] else v[id].(lastSeen := now))
  }

  function AfterLook(v: Views, idle: int, max: int, id: string, now: int): Views {
    if id == "" || id !in v then v
    else match Look(v, idle, max, id, now) case None => v - {id} case Some(s) => v[id := s]
  }

  function Promoted(v: Views, id: string, newId: string, csrf: string, now: int): Views {
    if id !in v then v else (v - {id})[newId := Sess(v[id].dek, csrf, false, now, now)]
  }

  function WithKey(v: Views, id: string, dek: Bytes): Views {
    if id !in v then v else v[id := v[id].(dek := Some(dek))]
  }

  function Swept(v: Views, idle: int, max: int, now: int): Views {
    map id | id in v && !v[id].Expired(idle, max, now) :: v[id]
  }

  lemma MinusMore(v: Views, gone: set<string>, more: set<string>)
    ensures (v - gone) - more == v - (gone + more)
  {
  }

  // ---- the object ----

  /** What is recorded of the map beside the map itself: its entries as values,
      every id ever given out, every key buffer ever stored, and the buffers stored
      now, each under its one session. */
  datatype Ledger = Ledger(
    views: Views, issued: set<string>, buffers: set<array<byte>>, owner: map<array<byte>, string>)

  class Sessions {
    var m: map<string, Session>
    var idle: int
    var max: int
    ghost var book: Ledger

    /** An entry stands under its own id and alone owns its buffer. */
    ghost predicate EntryOk(id: string)
      requires id in m && id in book.views && book.owner.Keys <= book.buffers
      reads this, m.Values, book.buffers
    {
      && m[id].id == id
      && (m[id].dek != null ==> m[id].dek in book.owner && book.owner[m[id].dek] == id)
      && m[id].AsView() == book.views[id]
    }

    /** A buffer is either stored, or scrubbed. */
    ghost predicate BufferOk(b: array<byte>)
      reads this, m.Values, b
    {
      if b in book.owner then book.owner[b] in m && m[book.owner[b]].dek == b else IsZero(b)
    }

    /** Custody: entries stand under their own ids, no two share a buffer, and a
        buffer that is no longer stored is all zeros. */
    ghost predicate Valid()
      reads this, m.Values, book.buffers
    {
      && m.Keys == book.views.Keys <= book.issued
      && book.owner.Keys <= book.buffers
      && (forall id | id in m :: EntryOk(id))
      && (forall b | b in book.buffers :: BufferOk(b))
    }

    constructor (idle: int, max: int)
      ensures Valid() && book == Ledger(map[], {}, {}, map[]) && this.idle == idle && this.max == max
    {
      m, book := map[], Ledger(map[], {}, {}, map[]);
      this.idle, this.max := idle, max;
    }

    method SetTimeouts(idle: int, max: int)
      requires Valid()
      modifies `idle, `max
      ensures Valid() && this.idle == idle && this.max == max
    {
      this.idle, this.max := idle, max;
    }

    /** The buffer passes into the map's keeping; no one else may hold it. */
    method New(dek: array?<byte>, pending: bool, id: string, csrf: string, now: int) returns (sess: Session)
      requires Valid()
      requires id !in book.issued && (dek != null ==> dek !in book.buffers)
      modifies `m, `book
      ensures Valid() && fresh(sess) && sess.dek == dek && sess.id == id
      ensures m == old(m)[id := sess]
      ensures book.views == Put(old(book.views), id, if dek == null then None else Some(dek[..]), csrf, pending, now)
      ensures book.issued == old(book.issued) + {id}
      ensures book.buffers == old(book.buffers) + if dek == null then {} else {dek}
    {
      sess := new Session(id, dek, csrf, pending, now);
      Enter(sess, Sess(if dek == null then None else Some(dek[..]), csrf, pending, now, now));
    }

    /** Puts a new session into the map, with its buffer. */
    method Enter(sess: Session, ghost view: View)
      requires Valid() && sess.Shows(view)
      requires sess.id !in book.issued && (sess.dek != null ==> sess.dek !in book.buffers)
      modifies `m, `book
      ensures Valid() && m == old(m)[sess.id := sess]
      ensures book.views == old(book.views)[sess.id := view]
      ensures book.issued == old(book.issued) + {sess.id}
      ensures book.buffers == old(book.buffers) + if sess.dek == null then {} else {sess.dek}
    {
      var id := sess.id;
      ghost var dek := sess.dek;
      m := m[id := sess];
      book := Ledger(
        book.views[id := view],
        book.issued + {id},
        book.buffers + (if dek == null then {} else {dek}),
        if dek == null then book.owner else book.owner[dek := id]);
      forall k | k in m ensures EntryOk(k) {
        if k != id {
          assert old(EntryOk(k)) && m[k] == old(m[k]);
        }
      }
      forall b | b in old(book.buffers) ensures BufferOk(b) {
        assert old(BufferOk(b));
      }
    }

    /** Removes an entry, if there is one, and scrubs its key. */
    method Evict(id: string)
      requires Valid()
      modifies `m, `book, book.buffers
      ensures Valid() && m == old(m) - {id}
      ensures book.views == old(book.views) - {id}
      ensures book.issued == old(book.issued) && book.buffers == old(book.buffers)
      ensures id in old(m) && old(m[id].dek) != null ==> IsZero(old(m[id].dek))
    {
      if id in m {
        Remove(id);
      } else {
        assert book.views == book.views - {id};
      }
    }

    method Remove(id: string)
      requires Valid() && id in m
      modifies `m, `book, book.buffers
      ensures Valid() && m == old(m) - {id}
      ensures book.views == old(book.views) - {id}
      ensures book.issued == old(book.issued) && book.buffers == old(book.buffers)
      ensures old(m[id].dek) != null ==> IsZero(old(m[id].dek))
    {
      var sess := m[id];
      assert EntryOk(id);
      if sess.dek != null {
        Zero(sess.dek);
      }
      m := m - {id};
      book := book.(
        views := book.views - {id},
        owner := if sess.dek == null then book.owner else book.owner - {sess.dek});
      forall k | k in m ensures EntryOk(k) {
        assert old(EntryOk(k));
      }
      forall b | b in book.buffers ensures BufferOk(b) {
        assert old(BufferOk(b));
      }
    }

    /** A live session, its idle timer refreshed; an expired one is scrubbed. */
    method Get(id: string, now: int) returns (sess: Session?)
      requires Valid()
      modifies `m, `book, m.Values, book.buffers
      ensures Valid()
      ensures book.views == AfterLook(old(book.views), idle, max, id, now)
      ensures book.issued == old(book.issued) && book.buffers == old(book.buffers)
      ensures sess == null <==> Look(old(book.views), idle, max, id, now).None?
      ensures sess != null ==> id in m && sess == m[id] == old(m)[id] && sess.Shows(book.views[id])
      ensures sess != null ==> sess.dek == old(m[id].dek)
      ensures m == old(m) || m == old(m) - {id}
    {
      if id == "" || id !in m {
        return null;
      }
      sess := m[id];
      assert EntryOk(id);
      if Expired(sess, now) {
        Evict(id);
        return null;
      }
      if !sess.pending {
        Touch(id, now);
      }
    }

    method Touch(id: string, now: int)
      requires Valid() && id in m
      modifies `book, m[id]
      ensures Valid()
      ensures book == old(book).(views := old(book.views)[id := old(book.views)[id].(lastSeen := now)])
      ensures m[id].dek == old(m[id].dek)
    {
      hide IsZero;
      assert EntryOk(id);
      m[id].lastSeen := now;
      book := book.(views := book.views[id := book.views[id].(lastSeen := now)]);
      forall k | k in m ensures EntryOk(k) {
        assert old(EntryOk(k));
      }
      forall b | b in book.buffers ensures BufferOk(b) {
        assert old(BufferOk(b));
      }
    }

    predicate Expired(sess: Session, now: int)
      reads this, sess
    {
      if sess.pending then now - sess.created > PENDING_TTL
      else now - sess.lastSeen > idle || now - sess.created > max
    }

    /** Rotates a session into an unlocked one under a fresh id, moving its buffer. */
    method Promote(id: string, newId: string, csrf: string, now: int) returns (sess: Session?)
      requires Valid() && newId !in book.issued
      modifies `m, `book, m.Values
      ensures Valid()
      ensures book.views == Promoted(old(book.views), id, newId, csrf, now)
      ensures book.buffers == old(book.buffers)
      ensures if id !in old(m) then sess == null && book.issued == old(book.issued)
              else sess != null && m == (old(m) - {id})[newId := sess] && sess == old(m[id])
                   && sess.id == newId && sess.dek == old(m[id].dek) && book.issued == old(book.issued) + {newId}
    {
      if id !in m {
        return null;
      }
      sess := m[id];
      assert EntryOk(id);
      sess.Renew(newId, csrf, now);
      m := (m - {id})[newId := sess];
      book := book.(
        views := Promoted(book.views, id, newId, csrf, now),
        issued := book.issued + {newId},
        owner := if sess.dek == null then book.owner else book.owner[sess.dek := newId]);
      forall k | k in m ensures EntryOk(k) {
        if k != newId {
          assert old(EntryOk(k));
        }
      }
      forall b | b in book.buffers ensures BufferOk(b) {
        assert old(BufferOk(b));
      }
    }

    method Delete(id: string)
      requires Valid()
      modifies `m, `book, book.buffers
      ensures Valid() && m == old(m) - {id}
      ensures book.views == old(book.views) - {id}
      ensures book.issued == old(book.issued) && book.buffers == old(book.buffers)
      ensures id in old(m) && old(m[id].dek) != null ==> IsZero(old(m[id].dek))
    {
      Evict(id);
    }

    /** Replaces a session's key and scrubs the old one. On an unknown id nothing
        happens, and the buffer stays with the caller. */
    method SetDek(id: string, dek: array<byte>)
      requires Valid() && dek !in book.buffers
      modifies `book, m.Values, book.buffers
      ensures Valid() && dek[..] == old(dek[..])
      ensures book.views == WithKey(old(book.views), id, dek[..])
      ensures book.issued == old(book.issued)
      ensures book.buffers == old(book.buffers) + if id in m then {dek} else {}
      ensures id in m && old(m[id].dek) != null ==> IsZero(old(m[id].dek))
    {
      if id in m {
        Exchange(id, dek);
      }
    }

    method Exchange(id: string, dek: array<byte>)
      requires Valid() && dek !in book.buffers && id in m
      modifies `book, m.Values, book.buffers
      ensures Valid()
      ensures book.views == old(book.views)[id := old(book.views)[id].(dek := Some(old(dek[..])))]
      ensures book.issued == old(book.issued) && book.buffers == old(book.buffers) + {dek}
      ensures old(m[id].dek) != null ==> IsZero(old(m[id].dek))
    {
      assert EntryOk(id);
      ghost var was, view := m[id].dek, book.views[id].(dek := Some(dek[..]));
      m[id].SwapKey(dek);
      assert m[id].AsView() == view;
      book := book.(
        views := book.views[id := view],
        buffers := book.buffers + {dek},
        owner := (if was == null then book.owner else book.owner - {was})[dek := id]);
      forall k | k in m ensures EntryOk(k) {
        if k != id {
          assert old(EntryOk(k));
        }
      }
      forall b | b in old(book.buffers) ensures BufferOk(b) {
        if b != was {
          assert old(BufferOk(b));
        }
      }
    }

    /** Scrubs every session that has timed out. */
    method EvictExpired(now: int)
      requires Valid()
      modifies `m, `book, book.buffers
      ensures Valid()
      ensures book.views == Swept(old(book.views), idle, max, now)
      ensures book.issued == old(book.issued) && book.buffers == old(book.buffers)
    {
      var ids := Enumerate(m.Keys);
      ghost var was := book;
      ghost var gone: set<string> := {};
      for i := 0 to |ids|
        invariant Valid()
        invariant book.views == was.views - gone && book.issued == was.issued && book.buffers == was.buffers
        invariant forall id :: id in gone <==>
          id in ids[..i] && id in was.views && was.views[id].Expired(idle, max, now)
      {
        assert ids[..i + 1] == ids[..i] + [ids[i]];
        assert ids[i] in was.views && ids[i] !in ids[..i];
        EvictIfExpired(ids[i], now);
        ghost var more := if was.views[ids[i]].Expired(idle, max, now) then {ids[i]} else {};
        MinusMore(was.views, gone, more);
        gone := gone + more;
      }
      assert ids[..|ids|] == ids;
      assert book.views == Swept(was.views, idle, max, now);
    }

    method EvictIfExpired(id: string, now: int)
      requires Valid() && id in m
      modifies `m, `book, book.buffers
      ensures Valid()
      ensures book.views == old(book.views) - if old(book.views)[id].Expired(idle, max, now) then {id} else {}
      ensures book.issued == old(book.issued) && book.buffers == old(book.buffers)
    {
      assert EntryOk(id);
      if Expired(m[id], now) {
        Evict(id);
      } else {
        assert book.views == book.views - {};
      }
    }
  }

  /** The ends of two code posts that overlap: both looked the session up while it was
      pending, and both had their code accepted. They share the object, so the second
      promotes what the first made of it: one unlocked session remains, with the key as it
      was, and the id that the first visitor was handed is gone. */
  method PromoteTwice(sessions: Sessions, sess: Session, first: string, second: string, csrf: string, csrf': string,
                      now: int, later: int)
    returns (a: Session?, b: Session?)
    requires sessions.Valid() && sess.id in sessions.m && sessions.m[sess.id] == sess
    requires first !in sessions.book.issued && second !in sessions.book.issued && first != second
    modifies sessions, sessions.m.Values
    ensures sessions.Valid() && a == b == sess && sess.id == second
    ensures var views, id := old(sessions.book.views), old(sess.id);
      sessions.book.views == (views - {id})[second := Sess(views[id].dek, csrf', false, later, later)]
    ensures first !in sessions.book.views && old(sess.id) !in sessions.book.views
  {
    hide Sessions.Valid;
    IdsAreIssued(sessions, sess);
    a := sessions.Promote(sess.id, first, csrf, now);
    assert sessions.m.Values <= old(sessions.m.Values);
    b := sessions.Promote(sess.id, second, csrf', later);
    assert old(sessions.book.views) - {old(sess.id)} - {first} == old(sessions.book.views) - {old(sess.id)};
  }

  lemma IdsAreIssued(sessions: Sessions, sess: Session)
    requires sessions.Valid() && sess in sessions.m.Values
    ensures sess.id in sessions.m && sessions.m[sess.id] == sess
    ensures sessions.m.Keys == sessions.book.views.Keys <= sessions.book.issued
  {
    var k :| k in sessions.m && sessions.m[k] == sess;
    assert sessions.EntryOk(k);
  }
}
