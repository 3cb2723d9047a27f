/** The full-text index `posts_fts` (internal/store/schema.sql): an external-content table kept by triggers. */
module Fts {
  import opened Prelude

  /** The tokenizer is a parameter: nothing here depends on how it splits a message. */
  type Tokenizer = string -> seq<string>

  /** One (token, rowid) pair per occurrence. `corrupt` is set when a 'delete' presents text that is not indexed. */
  datatype Index = Index(rowid: map<Id, nat>, next: nat, entries: multiset<(string, nat)>, corrupt: bool)

  const EMPTY := Index(map[], 1, multiset{}, false)

  function EntriesOf(tokens: seq<string>, rowid: nat): multiset<(string, nat)> {
    if tokens == [] then multiset{}
    else EntriesOf(tokens[..|tokens| - 1], rowid) + multiset{(tokens[|tokens| - 1], rowid)}
  }

  /** Trigger `posts_ai`: a new row gets the next rowid and its message is indexed. */
  function AfterInsert(tok: Tokenizer, ix: Index, id: Id, message: string): Index {
    ix.(rowid := ix.rowid[id := ix.next], next := ix.next + 1,
        entries := ix.entries + EntriesOf(tok(message), ix.next))
  }

  /** Trigger `posts_au`: a 'delete' that presents `presented`, then the new message under the same rowid. */
  function AfterUpdate(tok: Tokenizer, ix: Index, id: Id, presented: string, message: string): Index
    requires id in ix.rowid
  {
    var gone := EntriesOf(tok(presented), ix.rowid[id]);
    ix.(entries := ix.entries - gone + EntriesOf(tok(message), ix.rowid[id]),
        corrupt := ix.corrupt || !(gone <= ix.entries))
  }

  /** Every post has a rowid of its own. */
  ghost predicate RowidsUnique(ix: Index) {
    && (forall id :: id in ix.rowid ==> ix.rowid[id] < ix.next)
    && (forall a, b :: a in ix.rowid && b in ix.rowid && a != b ==> ix.rowid[a] != ix.rowid[b])
  }

  ghost predicate Owned(ix: Index, r: nat) { exists id :: id in ix.rowid && ix.rowid[id] == r }

  ghost predicate NoStrays(ix: Index) { forall t, r :: (t, r) in ix.entries ==> Owned(ix, r) }

  ghost predicate CountsAgree(tok: Tokenizer, messages: map<Id, string>, ix: Index)
    requires ix.rowid.Keys == messages.Keys
  {
    forall id, t :: id in ix.rowid ==> ix.entries[(t, ix.rowid[id])] == multiset(tok(messages[id]))[t]
  }

  /** The index holds the tokens of the current messages, each under its row's rowid, and nothing else. */
  ghost predicate Agrees(tok: Tokenizer, messages: map<Id, string>, ix: Index) {
    && !ix.corrupt
    && ix.rowid.Keys == messages.Keys
    && RowidsUnique(ix) && NoStrays(ix) && CountsAgree(tok, messages, ix)
  }

  /** `posts_fts MATCH 'token'`, joined back to the posts by rowid. */
  ghost function Match(ix: Index, token: string): set<Id> {
    set id | id in ix.rowid && (token, ix.rowid[id]) in ix.entries
  }

  lemma {:induction false} EntriesCount(tokens: seq<string>, rowid: nat, t: string, r: nat)
    ensures EntriesOf(tokens, rowid)[(t, r)] == if r == rowid then multiset(tokens)[t] else 0
  {
    if tokens != [] {
      EntriesCount(tokens[..|tokens| - 1], rowid, t, r);
      assert tokens == tokens[..|tokens| - 1] + [tokens[|tokens| - 1]];
    }
  }

  lemma EntriesCounts(tokens: seq<string>, rowid: nat)
    ensures forall t, r :: EntriesOf(tokens, rowid)[(t, r)] == if r == rowid then multiset(tokens)[t] else 0
  {
    forall t, r ensures EntriesOf(tokens, rowid)[(t, r)] == if r == rowid then multiset(tokens)[t] else 0 {
      EntriesCount(tokens, rowid, t, r);
    }
  }

  lemma InsertAgrees(tok: Tokenizer, messages: map<Id, string>, ix: Index, id: Id, message: string)
    requires Agrees(tok, messages, ix) && id !in messages
    ensures Agrees(tok, messages[id := message], AfterInsert(tok, ix, id, message))
  {
    var ix' := AfterInsert(tok, ix, id, message);
    InsertNoStrays(tok, ix, id, message);
    forall k, t | k in ix'.rowid
      ensures ix'.entries[(t, ix'.rowid[k])] == multiset(tok(messages[id := message][k]))[t]
    {
      EntriesCount(tok(message), ix.next, t, ix'.rowid[k]);
      assert !Owned(ix, ix.next);
    }
  }

  lemma InsertNoStrays(tok: Tokenizer, ix: Index, id: Id, message: string)
    requires RowidsUnique(ix) && NoStrays(ix) && id !in ix.rowid
    ensures RowidsUnique(AfterInsert(tok, ix, id, message)) && NoStrays(AfterInsert(tok, ix, id, message))
  {
    var ix' := AfterInsert(tok, ix, id, message);
    assert ix'.rowid[id] == ix.next;
    forall t, r | (t, r) in ix'.entries ensures Owned(ix', r) {
      EntriesCount(tok(message), ix.next, t, r);
      if (t, r) in ix.entries {
        var k :| k in ix.rowid && ix.rowid[k] == r;
        assert k in ix'.rowid && ix'.rowid[k] == r;
      }
    }
  }

  /** What a 'delete' must present: exactly the tokens that are indexed for the row. */
  lemma UpdateAgreesIff(
    tok: Tokenizer, messages: map<Id, string>, ix: Index, id: Id, presented: string, message: string)
    requires Agrees(tok, messages, ix) && id in messages
    ensures Agrees(tok, messages[id := message], AfterUpdate(tok, ix, id, presented, message))
       <==> multiset(tok(presented)) == multiset(tok(messages[id]))
  {
    if multiset(tok(presented)) == multiset(tok(messages[id])) {
      UpdateAgrees(tok, messages, ix, id, presented, message);
    }
    if Agrees(tok, messages[id := message], AfterUpdate(tok, ix, id, presented, message)) {
      AgreementNeedsIndexed(tok, messages, ix, id, presented, message);
    }
  }

  lemma AgreementNeedsIndexed(
    tok: Tokenizer, messages: map<Id, string>, ix: Index, id: Id, presented: string, message: string)
    requires Agrees(tok, messages, ix) && id in messages
    requires Agrees(tok, messages[id := message], AfterUpdate(tok, ix, id, presented, message))
    ensures multiset(tok(presented)) == multiset(tok(messages[id]))
  {
    var r := ix.rowid[id];
    var ix' := AfterUpdate(tok, ix, id, presented, message);
    EntriesCounts(tok(presented), r);
    EntriesCounts(tok(message), r);
    var was, now, shown := multiset(tok(messages[id])), multiset(tok(message)), multiset(tok(presented));
    forall t ensures shown[t] == was[t] {
      assert EntriesOf(tok(presented), r)[(t, r)] == shown[t];
      assert ix.entries[(t, r)] == was[t];
      assert EntriesOf(tok(presented), r) <= ix.entries;
      assert ix'.entries[(t, r)] == now[t];
    }
  }

  /** One count of the index after an update that presents what is indexed. */
  lemma UpdateCount(tok: Tokenizer, ix: Index, id: Id, presented: string, message: string, t: string, q: nat)
    requires id in ix.rowid
    ensures AfterUpdate(tok, ix, id, presented, message).entries[(t, q)] ==
      if q != ix.rowid[id] then ix.entries[(t, q)]
      else if ix.entries[(t, q)] <= multiset(tok(presented))[t] then multiset(tok(message))[t]
      else ix.entries[(t, q)] - multiset(tok(presented))[t] + multiset(tok(message))[t]
  {
    EntriesCount(tok(presented), ix.rowid[id], t, q);
    EntriesCount(tok(message), ix.rowid[id], t, q);
  }

  lemma UpdateAgrees(tok: Tokenizer, messages: map<Id, string>, ix: Index, id: Id, presented: string, message: string)
    requires Agrees(tok, messages, ix) && id in messages
    requires multiset(tok(presented)) == multiset(tok(messages[id]))
    ensures Agrees(tok, messages[id := message], AfterUpdate(tok, ix, id, presented, message))
  {
    PresentedIsIndexed(tok, messages, ix, id, presented);
    UpdateCountsAgree(tok, messages, ix, id, presented, message);
    UpdateNoStrays(tok, ix, id, presented, message);
  }

  lemma UpdateCountsAgree(
    tok: Tokenizer, messages: map<Id, string>, ix: Index, id: Id, presented: string, message: string)
    requires Agrees(tok, messages, ix) && id in messages
    requires multiset(tok(presented)) == multiset(tok(messages[id]))
    ensures CountsAgree(tok, messages[id := message], AfterUpdate(tok, ix, id, presented, message))
  {
    var ix' := AfterUpdate(tok, ix, id, presented, message);
    forall k, t | k in ix'.rowid
      ensures ix'.entries[(t, ix'.rowid[k])] == multiset(tok(messages[id := message][k]))[t]
    {
      UpdateCount(tok, ix, id, presented, message, t, ix.rowid[k]);
    }
  }

  lemma UpdateNoStrays(tok: Tokenizer, ix: Index, id: Id, presented: string, message: string)
    requires id in ix.rowid && NoStrays(ix)
    ensures NoStrays(AfterUpdate(tok, ix, id, presented, message))
  {
    var ix' := AfterUpdate(tok, ix, id, presented, message);
    forall t, q | (t, q) in ix'.entries ensures Owned(ix', q) {
      UpdateCount(tok, ix, id, presented, message, t, q);
      assert q == ix.rowid[id] || (t, q) in ix.entries;
      assert Owned(ix, q);
    }
  }

  lemma PresentedIsIndexed(tok: Tokenizer, messages: map<Id, string>, ix: Index, id: Id, presented: string)
    requires Agrees(tok, messages, ix) && id in messages
    requires multiset(tok(presented)) == multiset(tok(messages[id]))
    ensures EntriesOf(tok(presented), ix.rowid[id]) <= ix.entries
  {
    var gone := EntriesOf(tok(presented), ix.rowid[id]);
    forall e: (string, nat) ensures gone[e] <= ix.entries[e] {
      EntriesCount(tok(presented), ix.rowid[id], e.0, e.1);
      assert e == (e.0, e.1);
    }
  }

  /** Searching the index finds exactly the posts whose current message has the token. */
  lemma MatchIsSearch(tok: Tokenizer, messages: map<Id, string>, ix: Index, token: string)
    requires Agrees(tok, messages, ix)
    ensures Match(ix, token) == set id | id in messages && token in tok(messages[id])
  {
    forall id | id in messages ensures (token, ix.rowid[id]) in ix.entries <==> token in tok(messages[id]) {
      assert ix.entries[(token, ix.rowid[id])] == multiset(tok(messages[id]))[token];
      assert token in tok(messages[id]) <==> token in multiset(tok(messages[id]));
    }
  }

  /** The statements that touch `posts`: upserts, and soft deletes, which update `delete_at` only. */
  datatype Stmt = Upsert(id: Id, message: string) | SoftDelete(id: Id)

  function MessagesAfter(messages: map<Id, string>, stmt: Stmt): map<Id, string> {
    if stmt.Upsert? then messages[stmt.id := stmt.message] else messages
  }

  /** The triggers one statement fires; `old.message` is what the row held before it. */
  function IndexAfter(tok: Tokenizer, messages: map<Id, string>, ix: Index, stmt: Stmt): Index
    requires ix.rowid.Keys == messages.Keys
  {
    if stmt.id in messages then
      var message := if stmt.Upsert? then stmt.message else messages[stmt.id];
      AfterUpdate(tok, ix, stmt.id, messages[stmt.id], message)
    else if stmt.Upsert? then AfterInsert(tok, ix, stmt.id, stmt.message)
    else ix
  }

  lemma StatementAgrees(tok: Tokenizer, messages: map<Id, string>, ix: Index, stmt: Stmt)
    requires Agrees(tok, messages, ix)
    ensures Agrees(tok, MessagesAfter(messages, stmt), IndexAfter(tok, messages, ix, stmt))
  {
    if stmt.id !in messages {
      if stmt.Upsert? {
        InsertAgrees(tok, messages, ix, stmt.id, stmt.message);
      }
    } else {
      if stmt.Upsert? {
        UpdateAgrees(tok, messages, ix, stmt.id, messages[stmt.id], stmt.message);
      } else {
        UpdateAgrees(tok, messages, ix, stmt.id, messages[stmt.id], messages[stmt.id]);
        assert messages[stmt.id := messages[stmt.id]] == messages;
      }
    }
  }

  function MessagesRun(messages: map<Id, string>, stmts: seq<Stmt>): map<Id, string>
    decreases |stmts|
  {
    if stmts == [] then messages else MessagesRun(MessagesAfter(messages, stmts[0]), stmts[1..])
  }

  function IndexRun(tok: Tokenizer, messages: map<Id, string>, ix: Index, stmts: seq<Stmt>): Index
    requires ix.rowid.Keys == messages.Keys
    decreases |stmts|
  {
    if stmts == [] then ix
    else IndexRun(tok, MessagesAfter(messages, stmts[0]), IndexAfter(tok, messages, ix, stmts[0]), stmts[1..])
  }

  /** After every run of statements from an empty database, searching the index is searching the messages. */
  lemma IndexAlwaysAgrees(tok: Tokenizer, stmts: seq<Stmt>, token: string)
    ensures var messages, ix := MessagesRun(map[], stmts), IndexRun(tok, map[], EMPTY, stmts);
      && Agrees(tok, messages, ix)
      && Match(ix, token) == set id | id in messages && token in tok(messages[id])
  {
    assert Agrees(tok, map[], EMPTY);
    RunAgrees(tok, map[], EMPTY, stmts);
    MatchIsSearch(tok, MessagesRun(map[], stmts), IndexRun(tok, map[], EMPTY, stmts), token);
  }

  lemma {:induction false} RunAgrees(tok: Tokenizer, messages: map<Id, string>, ix: Index, stmts: seq<Stmt>)
    requires Agrees(tok, messages, ix)
    ensures Agrees(tok, MessagesRun(messages, stmts), IndexRun(tok, messages, ix, stmts))
    decreases |stmts|
  {
    if stmts != [] {
      StatementAgrees(tok, messages, ix, stmts[0]);
      RunAgrees(tok, MessagesAfter(messages, stmts[0]), IndexAfter(tok, messages, ix, stmts[0]), stmts[1..]);
    }
  }
}
