/** When vault-core stores a fetched object: the map from nginx's list of upstream attempts to the
    path `proxy_store` writes to. */
module StorePath {

  predicate EndsWith(s: string, suffix: string) {
    |suffix| <= |s| && s[|s| - |suffix|..] == suffix
  }

  /** `map $upstream_status $vault_store_path`: the exact key, the regular expression, the default. */
  function StoreTarget(upstreamStatus: string, uri: string): string {
    if upstreamStatus == "200" || EndsWith(upstreamStatus, ", 200") then uri else ""
  }

  function JoinWith(parts: seq<string>, sep: string): string
    requires parts != []
  {
    if |parts| == 1 then parts[0] else JoinWith(parts[..|parts| - 1], sep) + sep + parts[|parts| - 1]
  }

  /** The status of one attempt, or the dash of an attempt without an answer. */
  predicate IsAttempt(s: string) {
    s != "" && forall c :: c in s ==> c != ' ' && c != ',' && c != ':'
  }

  /** Every status nginx writes is one. */
  lemma StatusesAreAttempts(s: string)
    requires s == "-" || (s != "" && forall i :: 0 <= i < |s| ==> '0' <= s[i] <= '9')
    ensures IsAttempt(s)
  {
    forall c | c in s ensures c != ' ' && c != ',' && c != ':' {
      var i :| 0 <= i < |s| && s[i] == c;
    }
  }

  predicate AreAttempts(groups: seq<seq<string>>) {
    && groups != []
    && forall i :: 0 <= i < |groups| ==>
         groups[i] != [] && forall k :: 0 <= k < |groups[i]| ==> IsAttempt(groups[i][k])
  }

  function GroupTexts(groups: seq<seq<string>>): (texts: seq<string>)
    requires AreAttempts(groups)
    ensures |texts| == |groups|
  {
    seq(|groups|, i requires 0 <= i < |groups| => JoinWith(groups[i], ", "))
  }

  /** nginx's variable: attempts of one server group joined by a comma, groups by a colon. */
  function UpstreamStatus(groups: seq<seq<string>>): string
    requires AreAttempts(groups)
  {
    JoinWith(GroupTexts(groups), " : ")
  }

  lemma EndsInRetry200(s: string)
    ensures EndsWith(s, ", 200") <==>
      && |s| >= 5 && s[|s| - 5] == ',' && s[|s| - 4] == ' '
      && s[|s| - 3] == '2' && s[|s| - 2] == '0' && s[|s| - 1] == '0'
  {
    if |s| >= 5 {
      var tail := s[|s| - 5..];
      assert tail == [s[|s| - 5], s[|s| - 4], s[|s| - 3], s[|s| - 2], s[|s| - 1]];
      assert ", 200" == [',', ' ', '2', '0', '0'];
    }
  }

  lemma EndsInComma(s: string)
    ensures EndsWith(s, ", ") <==> |s| >= 2 && s[|s| - 2] == ',' && s[|s| - 1] == ' '
  {
    if |s| >= 2 { assert s[|s| - 2..] == [s[|s| - 2], s[|s| - 1]] && ", " == [',', ' ']; }
  }

  lemma Is200(s: string)
    ensures s == "200" <==> |s| == 3 && s[0] == '2' && s[1] == '0' && s[2] == '0'
  {
  }

  /** What stands before the last attempt decides. */
  lemma TailDecides(before: string, last: string)
    requires IsAttempt(last) && (before == "" || before[|before| - 1] == ' ')
    ensures var s := before + last;
      (s == "200" || EndsWith(s, ", 200")) <==> last == "200" && (before == "" || EndsWith(before, ", "))
  {
    var s := before + last;
    EndsInRetry200(s);
    EndsInComma(before);
    Is200(s);
    Is200(last);
    hide EndsWith;
    assert forall k :: 0 <= k < |last| ==> s[|before| + k] == last[k];
    assert forall k :: 0 <= k < |last| ==> last[k] in last;
    if |last| >= 4 { assert s[|s| - 4] == last[|last| - 4]; }
    if before != "" { assert s[|before| - 1] == ' '; }
  }

  lemma JoinEnds(parts: seq<string>, sep: string)
    requires parts != []
    ensures |parts| == 1 ==> JoinWith(parts, sep) == "" + parts[0]
    ensures |parts| > 1 ==> JoinWith(parts, sep) == (JoinWith(parts[..|parts| - 1], sep) + sep) + parts[|parts| - 1]
  {
  }

  /** An object is stored exactly when the last attempt answered 200 and that attempt is either the
      only one or a retry within its server group; any other ending stores nothing, so a stored
      object is never overwritten by an error page. */
  lemma StoredExactlyWhen(groups: seq<seq<string>>, uri: string)
    requires AreAttempts(groups) && uri != ""
    ensures var group := groups[|groups| - 1];
      && StoreTarget(UpstreamStatus(groups), uri) in {uri, ""}
      && (StoreTarget(UpstreamStatus(groups), uri) == uri
          <==> group[|group| - 1] == "200" && (|group| > 1 || |groups| == 1))
  {
    var group := groups[|groups| - 1];
    var last := group[|group| - 1];
    var texts := GroupTexts(groups);
    JoinEnds(texts, " : ");
    JoinEnds(group, ", ");
    var outer := if |groups| == 1 then "" else JoinWith(texts[..|texts| - 1], " : ") + " : ";
    var inner := if |group| == 1 then "" else JoinWith(group[..|group| - 1], ", ") + ", ";
    assert texts[|texts| - 1] == inner + last;
    assert UpstreamStatus(groups) == outer + (inner + last) == (outer + inner) + last;
    var before := outer + inner;
    assert before == "" <==> |groups| == 1 && |group| == 1;
    if |group| > 1 {
      assert before[|before| - 2..] == ", ";
    } else if |groups| > 1 {
      assert before == outer && before[|before| - 2] == ':' && before[|before| - 2..][0] == ':';
    }
    TailDecides(before, last);
  }

  lemma OneGroup(attempts: seq<string>)
    requires attempts != [] && forall k :: 0 <= k < |attempts| ==> IsAttempt(attempts[k])
    ensures AreAttempts([attempts]) && UpstreamStatus([attempts]) == JoinWith(attempts, ", ")
  {
    assert GroupTexts([attempts])[0] == JoinWith(attempts, ", ");
  }

  /** For the usual single group: stored exactly when the last attempt was a 200. */
  lemma LastAttemptDecides(attempts: seq<string>, uri: string)
    requires attempts != [] && uri != "" && forall k :: 0 <= k < |attempts| ==> IsAttempt(attempts[k])
    ensures StoreTarget(JoinWith(attempts, ", "), uri) == uri <==> attempts[|attempts| - 1] == "200"
  {
    hide *;
    OneGroup(attempts);
    StoredExactlyWhen([attempts], uri);
  }
}
