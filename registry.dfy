/** The subscriber log `db.txt`: a text file holding one subscribed address
    per line. The file is modelled by the lines a reader iterating over it
    sees, each with its terminating "\n"; `None` stands for a missing file. */
module Registry {
  import opened Common
  import opened Text

  /** The lines of the log; a missing file reads as no lines, which is also
      what appending to it in "a" mode starts from. */
  function LinesOf(db: Option<seq<string>>): seq<string>
  {
    if db.Some? then db.value else []
  }

  /** Some line of the log contains `email` as a substring (Python's `email in line`). */
  ghost predicate Listed(lines: seq<string>, email: string)
  {
    exists i :: 0 <= i < |lines| && Occurs(email, lines[i])
  }

  datatype Registration = Registration(reply: Reply, db: Option<seq<string>>)

  /** What one subscription does to the log: refuse when some line contains
      the address, otherwise append the address and a line terminator,
      creating the file when it is missing. */
  ghost function Register(db: Option<seq<string>>, email: string): Registration
  {
    if Listed(LinesOf(db), email) then Registration(AlreadySubscribed, db)
    else Registration(EmailAdded, Some(LinesOf(db) + [email + "\n"]))
  }

  /** The log file, updated in place by subscriptions. */
  class SubscriberLog {
    var db: Option<seq<string>>

    constructor (file: Option<seq<string>>)
      ensures db == file
    {
      db := file;
    }

    /** POST /subscribe: scan the lines in order and stop at the first one
        containing the address; if none does, append it. `email` is the form
        value as it is after validation as an email address. */
    method Subscribe(email: string) returns (reply: Reply)
      modifies this
      ensures Registration(reply, db) == Register(old(db), email)
      ensures reply == AlreadySubscribed <==> Listed(LinesOf(old(db)), email)
      ensures reply == AlreadySubscribed ==> db == old(db)
      ensures reply == EmailAdded ==> db == Some(LinesOf(old(db)) + [email + "\n"])
      ensures reply == AlreadySubscribed || reply == EmailAdded
      ensures StatusCode(reply) == if Listed(LinesOf(old(db)), email) then 409 else 200
    {
      if db.Some? {
        var lines := db.value;
        for i := 0 to |lines|
          invariant forall j :: 0 <= j < i ==> !Occurs(email, lines[j])
        {
          if Contains(lines[i], email) {
            return AlreadySubscribed;
          }
        }
      }
      db := Some(LinesOf(db) + [email + "\n"]);
      reply := EmailAdded;
    }
  }

  /** Subscribing twice in a row: whatever the first call answers, the second
      one is refused and leaves the log as the first left it, and the log has
      grown by at most one line overall. */
  lemma SubscribeTwice(db: Option<seq<string>>, email: string)
    ensures Register(Register(db, email).db, email) == Registration(AlreadySubscribed, Register(db, email).db)
    ensures |LinesOf(Register(db, email).db)| == |LinesOf(db)| + (if Listed(LinesOf(db), email) then 0 else 1)
  {
    var first := Register(db, email);
    if first.reply == EmailAdded {
      var lines := LinesOf(first.db);
      var last := |lines| - 1;
      assert lines[last] == email + "\n";
      assert OccursAt(email, lines[last], 0) by {
        assert (email + "\n")[0..|email|] == email;
      }
      assert Listed(lines, email);
    }
  }

  /** Duplicate detection is containment, not equality: a line holding the
      address anywhere inside it refuses the subscription. */
  lemma ContainingLineRefuses(lines: seq<string>, k: nat, before: string, email: string, after: string)
    requires k < |lines| && lines[k] == before + email + after
    ensures Register(Some(lines), email) == Registration(AlreadySubscribed, Some(lines))
  {
    assert OccursAt(email, lines[k], |before|) by {
      assert lines[k][|before|..|before| + |email|] == email;
    }
  }

  /** With "ba@x.com" subscribed, the different address "a@x.com" is refused. */
  lemma SuffixAddressRefused()
    ensures Register(Some(["ba@x.com\n"]), "a@x.com").reply == AlreadySubscribed
  {
    assert "ba@x.com\n" == "b" + "a@x.com" + "\n";
    ContainingLineRefuses(["ba@x.com\n"], 0, "b", "a@x.com", "\n");
  }

  /** The address a line records: the line without its terminator. */
  function Address(line: string): string
    requires |line| > 0
  {
    line[..|line| - 1]
  }

  /** The shape a log written only by subscriptions has: every line ends with
      "\n", and no line contains the address of a line written after it. */
  ghost predicate Deduplicated(lines: seq<string>)
  {
    && (forall i :: 0 <= i < |lines| ==> |lines[i]| > 0 && lines[i][|lines[i]| - 1] == '\n')
    && (forall i, j :: 0 <= i < j < |lines| ==> !Occurs(Address(lines[j]), lines[i]))
  }

  /** One subscription keeps a deduplicated log deduplicated. */
  lemma RegisterKeepsDeduplicated(db: Option<seq<string>>, email: string)
    requires Deduplicated(LinesOf(db))
    ensures Deduplicated(LinesOf(Register(db, email).db))
  {
    var prior := LinesOf(db);
    if !Listed(prior, email) {
      var lines := LinesOf(Register(db, email).db);
      var n := |prior|;
      assert lines == prior + [email + "\n"];
      assert Address(lines[n]) == email by {
        assert (email + "\n")[..|email|] == email;
      }
      forall i, j | 0 <= i < j < |lines|
        ensures !Occurs(Address(lines[j]), lines[i])
      {
        if j == n {
          assert lines[i] == prior[i];
        } else {
          assert lines[i] == prior[i] && lines[j] == prior[j];
        }
      }
    }
  }

  /** The log after a sequence of subscriptions, in order. */
  ghost function RegisterAll(db: Option<seq<string>>, emails: seq<string>): Option<seq<string>>
    decreases |emails|
  {
    if emails == [] then db else RegisterAll(Register(db, emails[0]).db, emails[1..])
  }

  /** Any sequence of subscriptions keeps a deduplicated log deduplicated. */
  lemma {:induction false} RegisterAllKeepsDeduplicated(db: Option<seq<string>>, emails: seq<string>)
    requires Deduplicated(LinesOf(db))
    ensures Deduplicated(LinesOf(RegisterAll(db, emails)))
    decreases |emails|
  {
    if emails != [] {
      RegisterKeepsDeduplicated(db, emails[0]);
      RegisterAllKeepsDeduplicated(Register(db, emails[0]).db, emails[1..]);
    }
  }

  /** In a deduplicated log no address is recorded twice. */
  lemma DeduplicatedHasDistinctAddresses(lines: seq<string>)
    requires Deduplicated(lines)
    ensures forall i, j :: 0 <= i < j < |lines| ==> Address(lines[i]) != Address(lines[j])
  {
    forall i, j | 0 <= i < j < |lines|
      ensures Address(lines[i]) != Address(lines[j])
    {
      assert OccursAt(Address(lines[i]), lines[i], 0);
    }
  }

  /** Starting from no file, every sequence of subscriptions leaves a log in
      which each address appears on one line only. */
  lemma SubscriptionsNeverDuplicate(emails: seq<string>)
    ensures var lines := LinesOf(RegisterAll(None, emails));
            forall i, j :: 0 <= i < j < |lines| ==> lines[i] != lines[j]
  {
    RegisterAllKeepsDeduplicated(None, emails);
    DeduplicatedHasDistinctAddresses(LinesOf(RegisterAll(None, emails)));
  }
}
