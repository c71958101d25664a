/** Declared NATS streams, consumers and credentials: normalised, sorted, validated, and turned into the reconcile
    script and its configuration files. */
module NatsResources {
  import opened Options
  import opened Ordering
  import opened Text

  datatype Stream = Stream(name: string, description: string, subjects: seq<string>, storage: string, retention: string,
                           maxAge: string, maxMsgs: int, maxBytes: int, replicas: Option<int>)

  datatype Consumer = Consumer(name: string, stream: string, description: string, filterSubjects: seq<string>,
                               ackPolicy: string, deliverPolicy: string, replayPolicy: string, maxAckPending: int)

  datatype Credential = Credential(name: string, username: string, description: string, publish: seq<string>,
                                   subscribe: seq<string>, allowResponses: bool)

  /** The part of the parameters that is normalised and hashed. */
  datatype Parameters = Parameters(jetStream: bool, streams: seq<Stream>, consumers: seq<Consumer>,
                                   credentials: seq<Credential>)

  /* ---------- Normalising ---------- */

  const STREAM_TEXT := "Servicer managed stream "
  const CONSUMER_TEXT := "Servicer managed consumer "
  const CREDENTIAL_TEXT := "Servicer managed credential "

  function NormalStream(s: Stream): Stream {
    var name := TrimSpace(s.name);
    s.(name := name,
       description := FirstNonEmpty(TrimSpace(s.description), STREAM_TEXT + name),
       storage := FirstNonEmpty(s.storage, "file"),
       retention := FirstNonEmpty(s.retention, "limits"),
       maxAge := FirstNonEmpty(s.maxAge, "168h"))
  }

  function NormalConsumer(c: Consumer): Consumer {
    var name := TrimSpace(c.name);
    c.(name := name,
       stream := TrimSpace(c.stream),
       description := FirstNonEmpty(TrimSpace(c.description), CONSUMER_TEXT + name),
       ackPolicy := FirstNonEmpty(c.ackPolicy, "explicit"),
       deliverPolicy := FirstNonEmpty(c.deliverPolicy, "all"),
       replayPolicy := FirstNonEmpty(c.replayPolicy, "instant"),
       maxAckPending := if c.maxAckPending == 0 then 1000 else c.maxAckPending)
  }

  function NormalCredential(c: Credential): Credential {
    var name := TrimSpace(c.name);
    c.(name := name,
       username := FirstNonEmpty(TrimSpace(c.username), name),
       description := FirstNonEmpty(TrimSpace(c.description), CREDENTIAL_TEXT + name))
  }

  predicate StreamLess(a: Stream, b: Stream) {
    Less(a.name, b.name)
  }

  predicate ConsumerLess(a: Consumer, b: Consumer) {
    if a.stream == b.stream then Less(a.name, b.name) else Less(a.stream, b.stream)
  }

  predicate CredentialLess(a: Credential, b: Credential) {
    Less(a.name, b.name)
  }

  /** The parameters that normalising and sorting may arrive at; equal keys may come out in either order. */
  ghost predicate NormalForm(raw: Parameters, result: Parameters) {
    && result.jetStream == raw.jetStream
    && SortOutcome(Mapped(raw.streams, NormalStream), result.streams, StreamLess)
    && SortOutcome(Mapped(raw.consumers, NormalConsumer), result.consumers, ConsumerLess)
    && SortOutcome(Mapped(raw.credentials, NormalCredential), result.credentials, CredentialLess)
  }

  lemma StreamOrders()
    ensures Orders(StreamLess) && forall x, y :: !(StreamLess(x, y) && StreamLess(y, x))
  {
    forall x: Stream, y: Stream ensures !(StreamLess(x, y) && StreamLess(y, x)) {
      LessIsTotal(x.name, y.name);
    }
    forall x: Stream, y: Stream, z: Stream | !StreamLess(y, x) && !StreamLess(z, y) ensures !StreamLess(z, x) {
      NotLessIsTransitive(x.name, y.name, z.name);
    }
  }

  lemma CredentialOrders()
    ensures Orders(CredentialLess) && forall x, y :: !(CredentialLess(x, y) && CredentialLess(y, x))
  {
    forall x: Credential, y: Credential ensures !(CredentialLess(x, y) && CredentialLess(y, x)) {
      LessIsTotal(x.name, y.name);
    }
    forall x: Credential, y: Credential, z: Credential | !CredentialLess(y, x) && !CredentialLess(z, y)
      ensures !CredentialLess(z, x)
    {
      NotLessIsTransitive(x.name, y.name, z.name);
    }
  }

  lemma ConsumerOrders()
    ensures Orders(ConsumerLess) && forall x, y :: !(ConsumerLess(x, y) && ConsumerLess(y, x))
  {
    forall x: Consumer, y: Consumer ensures !(ConsumerLess(x, y) && ConsumerLess(y, x)) {
      LessIsTotal(x.name, y.name);
      LessIsTotal(x.stream, y.stream);
    }
    forall x: Consumer, y: Consumer, z: Consumer | !ConsumerLess(y, x) && !ConsumerLess(z, y)
      ensures !ConsumerLess(z, x)
    {
      LessIsTotal(x.stream, y.stream);
      LessIsTotal(y.stream, z.stream);
      NotLessIsTransitive(x.stream, y.stream, z.stream);
      if x.stream == y.stream == z.stream {
        NotLessIsTransitive(x.name, y.name, z.name);
      } else if x.stream != y.stream && y.stream != z.stream {
        LessIsTransitive(x.stream, y.stream, z.stream);
        LessIsTotal(x.stream, z.stream);
      }
    }
  }

  lemma NotLessIsTransitive(s: string, t: string, u: string)
    requires !Less(t, s) && !Less(u, t)
    ensures !Less(u, s)
  {
    LessIsTotal(s, t);
    LessIsTotal(t, u);
    if Less(u, s) {
      LessIsTotal(s, u);
      if s != t && t != u {
        LessIsTransitive(s, t, u);
      }
    }
  }

  /** Rewrites and sorts the three slices in place. */
  method NormalizeAndSort(streams: array<Stream>, consumers: array<Consumer>, credentials: array<Credential>,
                          ghost jetStream: bool)
    modifies streams, consumers, credentials
    ensures NormalForm(old(Parameters(jetStream, streams[..], consumers[..], credentials[..])),
                       Parameters(jetStream, streams[..], consumers[..], credentials[..]))
  {
    StreamOrders();
    ConsumerOrders();
    CredentialOrders();
    MapInPlace(streams, NormalStream);
    SortInPlace(streams, StreamLess);
    MapInPlace(consumers, NormalConsumer);
    SortInPlace(consumers, ConsumerLess);
    MapInPlace(credentials, NormalCredential);
    SortInPlace(credentials, CredentialLess);
  }

  /* ---------- Validating ---------- */

  datatype Issue =
    | JetStreamDisabled
    | StreamUnnamed
    | StreamWithoutSubjects(name: string)
    | StreamRepeated(name: string)
    | ConsumerIncomplete
    | StreamUndeclared(consumer: string, stream: string)
    | ConsumerRepeated(name: string)
    | CredentialUnnamed
    | CredentialRepeated(name: string)
    | UsernameRepeated(name: string)

  function ConsumerKey(c: Consumer): string {
    c.stream + "/" + c.name
  }

  ghost predicate StreamsOk(streams: seq<Stream>) {
    && (forall i | 0 <= i < |streams| :: TrimSpace(streams[i].name) != "" && streams[i].subjects != [])
    && forall i, j | 0 <= i < j < |streams| :: streams[i].name != streams[j].name
  }

  ghost predicate ConsumerOk(c: Consumer, declared: set<string>) {
    TrimSpace(c.name) != "" && TrimSpace(c.stream) != "" && c.stream in declared
  }

  ghost predicate ConsumersOk(consumers: seq<Consumer>, declared: set<string>) {
    && (forall i | 0 <= i < |consumers| :: ConsumerOk(consumers[i], declared))
    && forall i, j | 0 <= i < j < |consumers| :: ConsumerKey(consumers[i]) != ConsumerKey(consumers[j])
  }

  ghost predicate CredentialsOk(credentials: seq<Credential>) {
    && (forall i | 0 <= i < |credentials| :: TrimSpace(credentials[i].name) != "")
    && (forall i, j | 0 <= i < j < |credentials| :: credentials[i].name != credentials[j].name)
    && forall i, j | 0 <= i < j < |credentials| && credentials[i].username != "" ::
         credentials[i].username != credentials[j].username
  }

  ghost function StreamNames(streams: seq<Stream>): set<string> {
    set i | 0 <= i < |streams| && TrimSpace(streams[i].name) != "" :: streams[i].name
  }

  ghost predicate Accepted(p: Parameters) {
    && (p.jetStream || (p.streams == [] && p.consumers == []))
    && StreamsOk(p.streams) && ConsumersOk(p.consumers, StreamNames(p.streams)) && CredentialsOk(p.credentials)
  }

  lemma OneMoreStream(before: seq<Stream>, s: Stream)
    ensures StreamsOk(before + [s])
       <==> StreamsOk(before) && TrimSpace(s.name) != "" && s.subjects != [] && s.name !in StreamNames(before)
    ensures StreamNames(before + [s]) == StreamNames(before) + if TrimSpace(s.name) == "" then {} else {s.name}
  {
    var now := before + [s];
    assert now[|before|] == s && forall k | 0 <= k < |before| :: now[k] == before[k];
  }

  method ValidateStreams(streams: seq<Stream>) returns (issues: seq<Issue>, names: set<string>)
    ensures issues == [] <==> StreamsOk(streams)
    ensures names == StreamNames(streams)
  {
    issues, names := [], {};
    for i := 0 to |streams|
      invariant issues == [] <==> StreamsOk(streams[..i])
      invariant names == StreamNames(streams[..i])
    {
      assert streams[..i + 1] == streams[..i] + [streams[i]];
      OneMoreStream(streams[..i], streams[i]);
      if TrimSpace(streams[i].name) == "" {
        issues := issues + [StreamUnnamed];
        continue;
      }
      if streams[i].subjects == [] {
        issues := issues + [StreamWithoutSubjects(streams[i].name)];
      }
      if streams[i].name in names {
        issues := issues + [StreamRepeated(streams[i].name)];
      }
      names := names + {streams[i].name};
    }
    assert streams[..|streams|] == streams;
  }

  lemma OneMoreConsumer(before: seq<Consumer>, c: Consumer, declared: set<string>)
    ensures ConsumersOk(before + [c], declared)
       <==> ConsumersOk(before, declared) && ConsumerOk(c, declared) && ConsumerKey(c) !in ConsumerKeys(before)
  {
    var now := before + [c];
    assert now[|before|] == c && forall k | 0 <= k < |before| :: now[k] == before[k];
  }

  ghost function ConsumerKeys(consumers: seq<Consumer>): set<string> {
    set i | 0 <= i < |consumers| :: ConsumerKey(consumers[i])
  }

  lemma OneMoreKey(before: seq<Consumer>, c: Consumer)
    ensures ConsumerKeys(before + [c]) == ConsumerKeys(before) + {ConsumerKey(c)}
  {
    var now := before + [c];
    assert now[|before|] == c && forall k | 0 <= k < |before| :: now[k] == before[k];
  }

  method ValidateConsumers(consumers: seq<Consumer>, declared: set<string>) returns (issues: seq<Issue>)
    ensures issues == [] <==> ConsumersOk(consumers, declared)
  {
    issues := [];
    var keys: set<string> := {};
    for i := 0 to |consumers|
      invariant issues == [] <==> ConsumersOk(consumers[..i], declared)
      invariant ConsumersOk(consumers[..i], declared) ==> keys == ConsumerKeys(consumers[..i])
    {
      assert consumers[..i + 1] == consumers[..i] + [consumers[i]];
      OneMoreConsumer(consumers[..i], consumers[i], declared);
      OneMoreKey(consumers[..i], consumers[i]);
      if TrimSpace(consumers[i].name) == "" || TrimSpace(consumers[i].stream) == "" {
        issues := issues + [ConsumerIncomplete];
        continue;
      }
      if consumers[i].stream !in declared {
        issues := issues + [StreamUndeclared(consumers[i].name, consumers[i].stream)];
      }
      if ConsumerKey(consumers[i]) in keys {
        issues := issues + [ConsumerRepeated(consumers[i].name)];
      }
      keys := keys + {ConsumerKey(consumers[i])};
    }
    assert consumers[..|consumers|] == consumers;
  }

  ghost function CredentialNames(credentials: seq<Credential>): set<string> {
    set i | 0 <= i < |credentials| :: credentials[i].name
  }

  ghost function Usernames(credentials: seq<Credential>): set<string> {
    set i | 0 <= i < |credentials| && credentials[i].username != "" :: credentials[i].username
  }

  lemma OneMoreCredential(before: seq<Credential>, c: Credential)
    ensures CredentialsOk(before + [c])
       <==> && CredentialsOk(before) && TrimSpace(c.name) != ""
            && c.name !in CredentialNames(before) && c.username !in Usernames(before)
  {
    var now := before + [c];
    assert now[|before|] == c && forall k | 0 <= k < |before| :: now[k] == before[k];
  }

  lemma OneMoreUsername(before: seq<Credential>, c: Credential)
    ensures CredentialNames(before + [c]) == CredentialNames(before) + {c.name}
    ensures Usernames(before + [c]) == Usernames(before) + if c.username == "" then {} else {c.username}
  {
    var now := before + [c];
    assert now[|before|] == c && forall k | 0 <= k < |before| :: now[k] == before[k];
  }

  method ValidateCredentials(credentials: seq<Credential>) returns (issues: seq<Issue>)
    ensures issues == [] <==> CredentialsOk(credentials)
  {
    issues := [];
    var names: set<string>, usernames: set<string> := {}, {};
    for i := 0 to |credentials|
      invariant issues == [] <==> CredentialsOk(credentials[..i])
      invariant issues == [] ==> names == CredentialNames(credentials[..i]) && usernames == Usernames(credentials[..i])
    {
      assert credentials[..i + 1] == credentials[..i] + [credentials[i]];
      OneMoreCredential(credentials[..i], credentials[i]);
      OneMoreUsername(credentials[..i], credentials[i]);
      if TrimSpace(credentials[i].name) == "" {
        issues := issues + [CredentialUnnamed];
        continue;
      }
      if credentials[i].name in names {
        issues := issues + [CredentialRepeated(credentials[i].name)];
      }
      names := names + {credentials[i].name};
      if credentials[i].username == "" {
        continue;
      }
      if credentials[i].username in usernames {
        issues := issues + [UsernameRepeated(credentials[i].name)];
      }
      usernames := usernames + {credentials[i].username};
    }
    assert credentials[..|credentials|] == credentials;
  }

  method ValidateManagedResources(p: Parameters) returns (issues: seq<Issue>)
    ensures issues == [] <==> Accepted(p)
  {
    issues := [];
    if !p.jetStream && (0 < |p.streams| || 0 < |p.consumers|) {
      issues := issues + [JetStreamDisabled];
    }
    var streamIssues, names := ValidateStreams(p.streams);
    var consumerIssues := ValidateConsumers(p.consumers, names);
    var credentialIssues := ValidateCredentials(p.credentials);
    issues := issues + streamIssues + consumerIssues + credentialIssues;
  }

  /** Acceptance keeps (stream, consumer) pairs unique and every consumer on a declared stream. */
  lemma AcceptedPairsAreUnique(p: Parameters)
    requires Accepted(p)
    ensures forall i, j | 0 <= i < j < |p.consumers| ::
              !(p.consumers[i].stream == p.consumers[j].stream && p.consumers[i].name == p.consumers[j].name)
    ensures forall c | c in p.consumers :: exists s | s in p.streams :: s.name == c.stream
  {
    forall i, j | 0 <= i < j < |p.consumers|
      ensures !(p.consumers[i].stream == p.consumers[j].stream && p.consumers[i].name == p.consumers[j].name)
    {
      assert ConsumerKey(p.consumers[i]) != ConsumerKey(p.consumers[j]);
    }
    forall c | c in p.consumers ensures exists s | s in p.streams :: s.name == c.stream {
      assert c.stream in StreamNames(p.streams);
      var i :| 0 <= i < |p.streams| && p.streams[i].name == c.stream;
      assert p.streams[i] in p.streams;
    }
  }

  /* ---------- One canonical form ---------- */

  ghost predicate Reordered(p: Parameters, q: Parameters) {
    && p.jetStream == q.jetStream && multiset(p.streams) == multiset(q.streams)
    && multiset(p.consumers) == multiset(q.consumers) && multiset(p.credentials) == multiset(q.credentials)
  }

  /** A sorted list whose keys are pairwise different is strictly increasing. */
  lemma AcceptedIsStrict(p: Parameters)
    requires Accepted(p)
    requires Sorted(p.streams, StreamLess) && Sorted(p.consumers, ConsumerLess) && Sorted(p.credentials, CredentialLess)
    ensures StrictlySorted(p.streams, StreamLess)
    ensures StrictlySorted(p.consumers, ConsumerLess)
    ensures StrictlySorted(p.credentials, CredentialLess)
  {
    AcceptedPairsAreUnique(p);
    forall i, j | 0 <= i < j < |p.streams| ensures StreamLess(p.streams[i], p.streams[j]) {
      LessIsTotal(p.streams[i].name, p.streams[j].name);
    }
    forall i, j | 0 <= i < j < |p.consumers| ensures ConsumerLess(p.consumers[i], p.consumers[j]) {
      LessIsTotal(p.consumers[i].stream, p.consumers[j].stream);
      LessIsTotal(p.consumers[i].name, p.consumers[j].name);
    }
    forall i, j | 0 <= i < j < |p.credentials| ensures CredentialLess(p.credentials[i], p.credentials[j]) {
      LessIsTotal(p.credentials[i].name, p.credentials[j].name);
    }
  }

  /** Once validation accepts what one order of declarations came to, every other order comes to the same parameters,
      and so to the same digest and the same script, although the sort is not stable. */
  lemma CanonicalForm(raw: Parameters, raw': Parameters, p: Parameters, p': Parameters, digest: Parameters -> string)
    requires NormalForm(raw, p) && NormalForm(raw', p') && Reordered(raw, raw') && Accepted(p)
    ensures p == p' && digest(p) == digest(p') && ReconcileScript(p) == ReconcileScript(p')
  {
    AcceptedIsStrict(p);
    MappedPermutes(raw.streams, raw'.streams, NormalStream);
    MappedPermutes(raw.consumers, raw'.consumers, NormalConsumer);
    MappedPermutes(raw.credentials, raw'.credentials, NormalCredential);
    OneOutcome(p.streams, p'.streams, StreamLess);
    OneOutcome(p.consumers, p'.consumers, ConsumerLess);
    OneOutcome(p.credentials, p'.credentials, CredentialLess);
  }

  /* ---------- What normalising fills in ---------- */

  /** The given text or, if that is empty, the default. */
  ghost predicate Given(given: string, default: string, result: string) {
    if given == "" then result == default else result == given
  }

  ghost predicate StreamFilled(s: Stream, n: Stream) {
    && n.name == TrimSpace(s.name)
    && Given(TrimSpace(s.description), "Servicer managed stream " + TrimSpace(s.name), n.description)
    && Given(s.storage, "file", n.storage) && Given(s.retention, "limits", n.retention)
    && Given(s.maxAge, "168h", n.maxAge)
    && n.subjects == s.subjects && n.maxMsgs == s.maxMsgs && n.maxBytes == s.maxBytes && n.replicas == s.replicas
  }

  ghost predicate ConsumerFilled(c: Consumer, n: Consumer) {
    && n.name == TrimSpace(c.name) && n.stream == TrimSpace(c.stream)
    && Given(TrimSpace(c.description), "Servicer managed consumer " + TrimSpace(c.name), n.description)
    && Given(c.ackPolicy, "explicit", n.ackPolicy) && Given(c.deliverPolicy, "all", n.deliverPolicy)
    && Given(c.replayPolicy, "instant", n.replayPolicy)
    && n.maxAckPending == (if c.maxAckPending == 0 then 1000 else c.maxAckPending)
    && n.filterSubjects == c.filterSubjects
  }

  ghost predicate CredentialFilled(c: Credential, n: Credential) {
    && n.name == TrimSpace(c.name) && Given(TrimSpace(c.username), TrimSpace(c.name), n.username)
    && Given(TrimSpace(c.description), "Servicer managed credential " + TrimSpace(c.name), n.description)
    && n.publish == c.publish && n.subscribe == c.subscribe && n.allowResponses == c.allowResponses
  }

  /** Every result of sorting mapped elements comes from one of them, and every one of them is there. */
  lemma OutcomeOfMapped<T(!new)>(s: seq<T>, f: T -> T, result: seq<T>, less: (T, T) -> bool)
    requires SortOutcome(Mapped(s, f), result, less)
    ensures |result| == |s| && forall n :: n in result <==> exists x | x in s :: f(x) == n
  {
    var mapped := Mapped(s, f);
    assert |multiset(result)| == |multiset(mapped)|;
    forall n ensures n in result <==> exists x | x in s :: f(x) == n {
      assert n in result <==> n in multiset(mapped);
      if n in mapped {
        var i :| 0 <= i < |mapped| && mapped[i] == n;
        assert s[i] in s && f(s[i]) == n;
      }
      if x :| x in s && f(x) == n {
        var i :| 0 <= i < |s| && s[i] == x;
        assert mapped[i] == n;
      }
    }
  }

  /** Normalising and sorting keep what a declaration gives, fill in what it leaves out, and make nothing up. */
  lemma DeclarationsAreFilledIn(raw: Parameters, p: Parameters)
    requires NormalForm(raw, p)
    ensures |p.streams| == |raw.streams| && |p.consumers| == |raw.consumers|
            && |p.credentials| == |raw.credentials| && p.jetStream == raw.jetStream
    ensures forall n: Stream :: n in p.streams <==> exists s | s in raw.streams :: StreamFilled(s, n)
    ensures forall n: Consumer :: n in p.consumers <==> exists c | c in raw.consumers :: ConsumerFilled(c, n)
    ensures forall n: Credential :: n in p.credentials <==> exists c | c in raw.credentials :: CredentialFilled(c, n)
  {
    OutcomeOfMapped(raw.streams, NormalStream, p.streams, StreamLess);
    OutcomeOfMapped(raw.consumers, NormalConsumer, p.consumers, ConsumerLess);
    OutcomeOfMapped(raw.credentials, NormalCredential, p.credentials, CredentialLess);
    NormalIsFilled();
  }

  /** Streams and credentials come by name, and consumers by stream and then by name. */
  lemma DeclarationsAreOrdered(raw: Parameters, p: Parameters)
    requires NormalForm(raw, p)
    ensures forall i, j | 0 <= i < j < |p.streams| ::
              p.streams[i].name == p.streams[j].name || Less(p.streams[i].name, p.streams[j].name)
    ensures forall i, j | 0 <= i < j < |p.credentials| ::
              p.credentials[i].name == p.credentials[j].name || Less(p.credentials[i].name, p.credentials[j].name)
    ensures forall i, j | 0 <= i < j < |p.consumers| ::
              || Less(p.consumers[i].stream, p.consumers[j].stream)
              || (p.consumers[i].stream == p.consumers[j].stream
                  && (p.consumers[i].name == p.consumers[j].name || Less(p.consumers[i].name, p.consumers[j].name)))
  {
    forall s: string, t: string ensures s == t || Less(s, t) || Less(t, s) {
      LessIsTotal(s, t);
    }
  }

  lemma NormalIsFilled()
    ensures forall s, n :: NormalStream(s) == n <==> StreamFilled(s, n)
    ensures forall c, n :: NormalConsumer(c) == n <==> ConsumerFilled(c, n)
    ensures forall c, n :: NormalCredential(c) == n <==> CredentialFilled(c, n)
  {
  }

  /** A description made up for a name stays as it is when trimmed exactly when the name is not empty. */
  lemma DefaultTextTrims(text: string, name: string)
    requires text != "" && !IsSpace(text[0]) && text[|text| - 1] == ' ' && Trimmed(name, IsSpace)
    ensures FirstNonEmpty(TrimSpace(text + name), text + name) == text + name <==> name != ""
  {
    var made := text + name;
    if name != "" {
      assert made[0] == text[0] && made[|made| - 1] == name[|name| - 1];
      TrimmedStays(made, IsSpace);
    } else {
      assert made == text;
      var from, to := TrimIsMiddle(made, IsSpace);
      assert from == 0 && to != 0 by { assert !IsSpace(made[0]); }
      assert IsSpace(made[|made| - 1]);
    }
  }

  /** Normalising twice is normalising once, exactly for a resource with a name or a description. */
  lemma NormalStreamTwice(s: Stream)
    ensures NormalStream(NormalStream(s)) == NormalStream(s)
       <==> TrimSpace(s.name) != "" || TrimSpace(s.description) != ""
  {
    TrimTwice(s.name, IsSpace);
    TrimTwice(s.description, IsSpace);
    DefaultTextTrims(STREAM_TEXT, TrimSpace(s.name));
  }

  lemma NormalConsumerTwice(c: Consumer)
    ensures NormalConsumer(NormalConsumer(c)) == NormalConsumer(c)
       <==> TrimSpace(c.name) != "" || TrimSpace(c.description) != ""
  {
    TrimTwice(c.name, IsSpace);
    TrimTwice(c.stream, IsSpace);
    TrimTwice(c.description, IsSpace);
    DefaultTextTrims(CONSUMER_TEXT, TrimSpace(c.name));
  }

  lemma NormalCredentialTwice(k: Credential)
    ensures NormalCredential(NormalCredential(k)) == NormalCredential(k)
       <==> TrimSpace(k.name) != "" || TrimSpace(k.description) != ""
  {
    TrimTwice(k.name, IsSpace);
    TrimTwice(k.username, IsSpace);
    TrimTwice(k.description, IsSpace);
    DefaultTextTrims(CREDENTIAL_TEXT, TrimSpace(k.name));
  }

  lemma NormalStreamsStay(raw: seq<Stream>, result: seq<Stream>)
    requires SortOutcome(Mapped(raw, NormalStream), result, StreamLess) && StreamsOk(result)
    ensures Mapped(result, NormalStream) == result
  {
    forall i | 0 <= i < |result| ensures NormalStream(result[i]) == result[i] {
      assert result[i] in multiset(Mapped(raw, NormalStream));
      var k :| 0 <= k < |raw| && Mapped(raw, NormalStream)[k] == result[i];
      TrimTwice(raw[k].name, IsSpace);
      NormalStreamTwice(raw[k]);
    }
  }

  lemma NormalConsumersStay(raw: seq<Consumer>, result: seq<Consumer>, declared: set<string>)
    requires SortOutcome(Mapped(raw, NormalConsumer), result, ConsumerLess) && ConsumersOk(result, declared)
    ensures Mapped(result, NormalConsumer) == result
  {
    forall i | 0 <= i < |result| ensures NormalConsumer(result[i]) == result[i] {
      assert result[i] in multiset(Mapped(raw, NormalConsumer));
      var k :| 0 <= k < |raw| && Mapped(raw, NormalConsumer)[k] == result[i];
      TrimTwice(raw[k].name, IsSpace);
      NormalConsumerTwice(raw[k]);
    }
  }

  lemma NormalCredentialsStay(raw: seq<Credential>, result: seq<Credential>)
    requires SortOutcome(Mapped(raw, NormalCredential), result, CredentialLess) && CredentialsOk(result)
    ensures Mapped(result, NormalCredential) == result
  {
    forall i | 0 <= i < |result| ensures NormalCredential(result[i]) == result[i] {
      assert result[i] in multiset(Mapped(raw, NormalCredential));
      var k :| 0 <= k < |raw| && Mapped(raw, NormalCredential)[k] == result[i];
      TrimTwice(raw[k].name, IsSpace);
      NormalCredentialTwice(raw[k]);
    }
  }

  /** The canonical form is stable: decoding accepted parameters again gives the same ones back. */
  lemma CanonicalFormIsStable(raw: Parameters, p: Parameters, again: Parameters)
    requires NormalForm(raw, p) && Accepted(p) && NormalForm(p, again)
    ensures again == p
  {
    AcceptedIsStrict(p);
    NormalStreamsStay(raw.streams, p.streams);
    NormalConsumersStay(raw.consumers, p.consumers, StreamNames(p.streams));
    NormalCredentialsStay(raw.credentials, p.credentials);
    OneOutcome(p.streams, again.streams, StreamLess);
    OneOutcome(p.consumers, again.consumers, ConsumerLess);
    OneOutcome(p.credentials, again.credentials, CredentialLess);
  }

  /* ---------- The script and its files ---------- */

  datatype Command =
    | ApplyStream(name: string, file: string)
    | ApplyConsumer(stream: string, name: string, file: string)

  function StreamFile(s: Stream): string {
    "stream-" + s.name + ".json"
  }

  function ConsumerFile(c: Consumer): string {
    "consumer-" + c.stream + "-" + c.name + ".json"
  }

  /** Streams first, then consumers, each added or edited from its own file. */
  function ReconcileScript(p: Parameters): seq<Command> {
    Mapped(p.streams, (s: Stream) => ApplyStream(s.name, StreamFile(s)))
    + Mapped(p.consumers, (c: Consumer) => ApplyConsumer(c.stream, c.name, ConsumerFile(c)))
  }

  lemma StreamInScript(p: Parameters, i: nat)
    requires i < |p.streams|
    ensures i < |ReconcileScript(p)|
            && ReconcileScript(p)[i] == ApplyStream(p.streams[i].name, StreamFile(p.streams[i]))
  {
  }

  lemma ConsumerInScript(p: Parameters, j: nat)
    requires j < |p.consumers|
    ensures |p.streams| + j < |ReconcileScript(p)|
    ensures var c := p.consumers[j];
            ReconcileScript(p)[|p.streams| + j] == ApplyConsumer(c.stream, c.name, ConsumerFile(c))
  {
  }

  /** When validation accepts, the script applies every stream before any consumer of it. */
  lemma StreamsComeFirst(p: Parameters, c: Consumer)
    requires Accepted(p) && c in p.consumers
    ensures exists i, j :: 0 <= i < j < |ReconcileScript(p)|
              && ReconcileScript(p)[i].ApplyStream? && ReconcileScript(p)[i].name == c.stream
              && ReconcileScript(p)[j] == ApplyConsumer(c.stream, c.name, ConsumerFile(c))
  {
    AcceptedPairsAreUnique(p);
    var s :| s in p.streams && s.name == c.stream;
    var i :| 0 <= i < |p.streams| && p.streams[i] == s;
    var j :| 0 <= j < |p.consumers| && p.consumers[j] == c;
    StreamInScript(p, i);
    ConsumerInScript(p, j);
    var script := ReconcileScript(p);
    assert script[i].ApplyStream? && script[i].name == c.stream;
  }

  /** One stream's name, a separator and some text are the other's, and the rest of the names makes up for it. */
  ghost predicate Shifted(sep: char, a: Consumer, b: Consumer) {
    exists text: string :: a.stream == b.stream + [sep] + text && b.name == text + [sep] + a.name
  }

  function Joined(sep: char, c: Consumer): string {
    c.stream + [sep] + c.name
  }

  /** Joined names of two consumers are the same exactly when they are the same pair or separators within them shift. */
  lemma SameJoinedIff(sep: char, a: Consumer, b: Consumer)
    ensures Joined(sep, a) == Joined(sep, b)
       <==> (a.stream == b.stream && a.name == b.name) || Shifted(sep, a, b) || Shifted(sep, b, a)
  {
    if Joined(sep, a) == Joined(sep, b) {
      if |a.stream| == |b.stream| {
        JoinedSplits(sep, a, b);
      } else if |b.stream| < |a.stream| {
        ShiftFrom(sep, a, b);
      } else {
        ShiftFrom(sep, b, a);
      }
    }
    if Shifted(sep, a, b) {
      ShiftedJoin(sep, a, b);
    }
    if Shifted(sep, b, a) {
      ShiftedJoin(sep, b, a);
    }
  }

  lemma ShiftedJoin(sep: char, a: Consumer, b: Consumer)
    requires Shifted(sep, a, b)
    ensures Joined(sep, a) == Joined(sep, b)
  {
    var text: string :| a.stream == b.stream + [sep] + text && b.name == text + [sep] + a.name;
    assert b.stream + [sep] + text + [sep] + a.name == b.stream + [sep] + (text + [sep] + a.name);
  }

  lemma JoinedSplits(sep: char, a: Consumer, b: Consumer)
    requires |a.stream| == |b.stream| && Joined(sep, a) == Joined(sep, b)
    ensures a.stream == b.stream && a.name == b.name
  {
    var x, y := Joined(sep, a), Joined(sep, b);
    assert a.stream == x[..|a.stream|] && b.stream == y[..|b.stream|];
    assert a.name == x[|a.stream| + 1..] && b.name == y[|b.stream| + 1..];
  }

  lemma ShiftFrom(sep: char, a: Consumer, b: Consumer)
    requires |b.stream| < |a.stream| && Joined(sep, a) == Joined(sep, b)
    ensures Shifted(sep, a, b)
  {
    var x, y := Joined(sep, a), Joined(sep, b);
    var text := a.stream[|b.stream| + 1..];
    assert a.stream == x[..|a.stream|] && b.stream == y[..|b.stream|];
    assert a.stream[|b.stream|] == x[|b.stream|] == y[|b.stream|] == sep;
    assert a.stream == b.stream + [sep] + text;
    assert b.name == y[|b.stream| + 1..] && text + [sep] + a.name == x[|b.stream| + 1..];
  }

  /** Two consumers are configured from the same file exactly when they are the same pair or dashes in their names
      shift. */
  lemma SharedConsumerFile(a: Consumer, b: Consumer)
    ensures ConsumerFile(a) == ConsumerFile(b)
       <==> (a.stream == b.stream && a.name == b.name) || Shifted('-', a, b) || Shifted('-', b, a)
  {
    SameJoinedIff('-', a, b);
    FileOfJoined(a);
    FileOfJoined(b);
    if ConsumerFile(a) == ConsumerFile(b) {
      var file, file' := ConsumerFile(a), ConsumerFile(b);
      assert Joined('-', a) == file[9..|file| - 5] && Joined('-', b) == file'[9..|file'| - 5];
    }
  }

  lemma FileOfJoined(c: Consumer)
    ensures ConsumerFile(c) == "consumer-" + Joined('-', c) + ".json"
  {
  }

  /** Validation takes two consumers for one exactly when they are the same pair or slashes in their names shift;
      without slashes in the streams' names it never confuses two. */
  lemma SameKeyIff(a: Consumer, b: Consumer)
    ensures ConsumerKey(a) == ConsumerKey(b)
       <==> (a.stream == b.stream && a.name == b.name) || Shifted('/', a, b) || Shifted('/', b, a)
    ensures '/' !in a.stream && '/' !in b.stream
            ==> (ConsumerKey(a) == ConsumerKey(b) <==> a.stream == b.stream && a.name == b.name)
  {
    SameJoinedIff('/', a, b);
    assert ConsumerKey(a) == Joined('/', a) && ConsumerKey(b) == Joined('/', b);
    if '/' !in a.stream && '/' !in b.stream {
      SlashInShifted(a, b);
      SlashInShifted(b, a);
    }
  }

  lemma SlashInShifted(a: Consumer, b: Consumer)
    ensures Shifted('/', a, b) ==> '/' in a.stream
  {
    if text: string :| a.stream == b.stream + ['/'] + text && b.name == text + ['/'] + a.name {
      assert a.stream[|b.stream|] == '/';
    }
  }

  /** Texts that trimming leaves alone. */
  lemma PlainTexts()
    ensures TrimSpace("a") == "a" && TrimSpace("a-b") == "a-b" && TrimSpace("c") == "c"
    ensures TrimSpace("b-c") == "b-c" && TrimSpace("d") == "d"
  {
    TrimmedStays("a", IsSpace);
    TrimmedStays("a-b", IsSpace);
    TrimmedStays("c", IsSpace);
    TrimmedStays("b-c", IsSpace);
    TrimmedStays("d", IsSpace);
  }

  function SampleStream(name: string): Stream {
    Stream(name, "d", ["x"], "file", "limits", "168h", 0, 0, None)
  }

  function SampleConsumer(stream: string, name: string): Consumer {
    Consumer(name, stream, "d", [], "explicit", "all", "instant", 1000)
  }

  /** Two streams and a consumer of each, normalised and sorted. */
  const SAMPLE := Parameters(true, [SampleStream("a"), SampleStream("a-b")],
                             [SampleConsumer("a", "b-c"), SampleConsumer("a-b", "c")], [])

  lemma SampleStreamIsNormal(name: string)
    requires TrimSpace(name) == name && TrimSpace("d") == "d"
    ensures NormalStream(SampleStream(name)) == SampleStream(name)
  {
  }

  lemma SampleConsumerIsNormal(stream: string, name: string)
    requires TrimSpace(stream) == stream && TrimSpace(name) == name && TrimSpace("d") == "d"
    ensures NormalConsumer(SampleConsumer(stream, name)) == SampleConsumer(stream, name)
  {
  }

  lemma TwoMapped<T>(a: T, b: T, f: T -> T)
    requires f(a) == a && f(b) == b
    ensures Mapped([a, b], f) == [a, b]
  {
  }

  lemma SampleIsNormal()
    ensures NormalForm(SAMPLE, SAMPLE)
  {
    PlainTexts();
    SampleStreamIsNormal("a");
    SampleStreamIsNormal("a-b");
    TwoMapped(SampleStream("a"), SampleStream("a-b"), NormalStream);
    SampleConsumerIsNormal("a", "b-c");
    SampleConsumerIsNormal("a-b", "c");
    TwoMapped(SampleConsumer("a", "b-c"), SampleConsumer("a-b", "c"), NormalConsumer);
    assert Less("a", "a-b") && "a" != "a-b";
    LessIsTotal("a", "a-b");
  }

  lemma SampleIsAccepted()
    ensures Accepted(SAMPLE)
  {
    PlainTexts();
    assert "a" != "a-b";
    assert "a" in StreamNames(SAMPLE.streams) && "a-b" in StreamNames(SAMPLE.streams) by {
      assert SAMPLE.streams[0].name == "a" && SAMPLE.streams[1].name == "a-b";
    }
    assert ConsumerKey(SAMPLE.consumers[0])[1] == '/' && ConsumerKey(SAMPLE.consumers[1])[1] == '-';
  }

  /** Normalising and validating do not rule that out: two accepted consumers share a file, so one of them is configured
      from the other's settings. */
  lemma AcceptedConsumersMayShareFile()
    ensures exists raw: Parameters, p: Parameters :: NormalForm(raw, p) && Accepted(p) && |p.consumers| == 2
              && ConsumerFile(p.consumers[0]) == ConsumerFile(p.consumers[1])
  {
    SampleIsNormal();
    SampleIsAccepted();
    SampleSharesFile();
  }

  lemma SampleSharesFile()
    ensures ConsumerFile(SampleConsumer("a", "b-c")) == ConsumerFile(SampleConsumer("a-b", "c"))
  {
    var one, two, text := SampleConsumer("a", "b-c"), SampleConsumer("a-b", "c"), "b";
    assert two.stream == one.stream + ['-'] + text && one.name == text + ['-'] + two.name;
    SharedConsumerFile(two, one);
  }
}
