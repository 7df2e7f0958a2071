/** What a configuration says after a series of calls on the builder. */
module ConfigBuilder {
  import opened Wrappers
  import opened Cors

  predicate NoneFrom(calls: seq<BuilderCall>, k: nat, isOne: BuilderCall -> bool) {
    forall j :: k <= j < |calls| ==> !isOne(calls[j])
  }

  const IsAnyOrigin: BuilderCall -> bool := (call: BuilderCall) => call.AnyOrigin?
  const IsAddOrigin: BuilderCall -> bool := (call: BuilderCall) => call.AddOrigin?
  const IsSetMaxAge: BuilderCall -> bool := (call: BuilderCall) => call.SetMaxAge?

  // ----- origins -----

  lemma {:induction false} AnyKept(calls: seq<BuilderCall>, k: nat)
    requires k < |calls| && calls[k].AnyOrigin? && NoneFrom(calls, k + 1, IsAddOrigin)
    ensures Build(calls).origins.None?
  {
    var n := |calls| - 1;
    if k < n && !calls[n].AnyOrigin? {
      assert !IsAddOrigin(calls[n]);
      AnyKept(calls[..n], k);
    }
  }

  lemma {:induction false} AnyFrom(calls: seq<BuilderCall>) returns (k: nat)
    requires Build(calls).origins.None?
    ensures k < |calls| && calls[k].AnyOrigin? && NoneFrom(calls, k + 1, IsAddOrigin)
  {
    var n := |calls| - 1;
    if calls[n].AnyOrigin? {
      k := n;
    } else {
      k := AnyFrom(calls[..n]);
    }
  }

  lemma {:induction false} OriginKept(calls: seq<BuilderCall>, k: nat, origin: string)
    requires k < |calls| && calls[k] == AddOrigin(origin) && NoneFrom(calls, k + 1, IsAnyOrigin)
    ensures Build(calls).origins.Some? && origin in Build(calls).origins.value
  {
    var n := |calls| - 1;
    if k < n {
      assert !IsAnyOrigin(calls[n]);
      OriginKept(calls[..n], k, origin);
    }
  }

  lemma {:induction false} OriginFrom(calls: seq<BuilderCall>, origin: string) returns (k: nat)
    requires Build(calls).origins.Some? && origin in Build(calls).origins.value
    ensures k < |calls| && calls[k] == AddOrigin(origin) && NoneFrom(calls, k + 1, IsAnyOrigin)
  {
    var n := |calls| - 1;
    if calls[n] == AddOrigin(origin) {
      k := n;
    } else {
      k := OriginFrom(calls[..n], origin);
    }
  }

  /**
    All origins are allowed exactly if `any_origin` was called and `origin` not after it; otherwise the
    allowed origins are those named since the last `any_origin`.
   */
  lemma OriginsAsCalled(calls: seq<BuilderCall>)
    ensures Build(calls).origins.None? <==>
      exists k: nat :: k < |calls| && calls[k].AnyOrigin? && NoneFrom(calls, k + 1, IsAddOrigin)
    ensures forall origin :: IsConfigured(Build(calls), origin) <==>
      || Build(calls).origins.None?
      || exists k: nat :: k < |calls| && calls[k] == AddOrigin(origin) && NoneFrom(calls, k + 1, IsAnyOrigin)
  {
    if Build(calls).origins.None? {
      var k := AnyFrom(calls);
    }
    forall k: nat | k < |calls| && calls[k].AnyOrigin? && NoneFrom(calls, k + 1, IsAddOrigin)
      ensures Build(calls).origins.None?
    {
      AnyKept(calls, k);
    }
    if Build(calls).origins.Some? {
      forall origin ensures origin in Build(calls).origins.value <==>
        exists k: nat :: k < |calls| && calls[k] == AddOrigin(origin) && NoneFrom(calls, k + 1, IsAnyOrigin)
      {
        if origin in Build(calls).origins.value {
          var k := OriginFrom(calls, origin);
        }
        if k: nat :| k < |calls| && calls[k] == AddOrigin(origin) && NoneFrom(calls, k + 1, IsAnyOrigin) {
          OriginKept(calls, k, origin);
        }
      }
    }
  }

  // ----- methods, header names, age and credentials -----

  predicate NoRepeats(list: seq<string>) { forall i, j :: 0 <= i < j < |list| ==> list[i] != list[j] }

  lemma PushNewKeeps(list: seq<string>, s: string)
    requires NoRepeats(list)
    ensures NoRepeats(PushNew(list, s))
    ensures forall x :: x in PushNew(list, s) <==> x in list || x == s
  {}

  /** The methods are those named, each once, and credentials are allowed if that was called. */
  lemma {:induction false} MethodsAsCalled(calls: seq<BuilderCall>)
    ensures var c := Build(calls);
      && NoRepeats(c.methods)
      && (forall m :: m in c.methods <==> AddMethod(m) in calls)
      && (c.credentials <==> SetCredentials in calls)
  {
    if calls != [] {
      var init, last := calls[..|calls| - 1], calls[|calls| - 1];
      MethodsAsCalled(init);
      assert calls == init + [last];
      if last.AddMethod? { PushNewKeeps(Build(init).methods, last.verb); }
    }
  }

  /** The header names to allow are those given, in lower case, each once. */
  lemma {:induction false} AllowedAsCalled(calls: seq<BuilderCall>)
    ensures var list := Build(calls).allowHeaders;
      && NoRepeats(list)
      && forall h :: h in list <==> exists name :: AllowHeader(name) in calls && Lower(name) == h
  {
    if calls != [] {
      var init, last := calls[..|calls| - 1], calls[|calls| - 1];
      AllowedAsCalled(init);
      assert calls == init + [last];
      if last.AllowHeader? { PushNewKeeps(Build(init).allowHeaders, Lower(last.name)); }
    }
  }

  /** The header names to expose are those given, in lower case, each once. */
  lemma {:induction false} ExposedAsCalled(calls: seq<BuilderCall>)
    ensures var list := Build(calls).exposeHeaders;
      && NoRepeats(list)
      && forall h :: h in list <==> exists name :: ExposeHeader(name) in calls && Lower(name) == h
  {
    if calls != [] {
      var init, last := calls[..|calls| - 1], calls[|calls| - 1];
      ExposedAsCalled(init);
      assert calls == init + [last];
      if last.ExposeHeader? { PushNewKeeps(Build(init).exposeHeaders, Lower(last.name)); }
    }
  }

  /** The age is the last one that was set. */
  lemma {:induction false} AgeAsCalled(calls: seq<BuilderCall>, k: nat)
    requires k <= |calls| && NoneFrom(calls, k, IsSetMaxAge) && (k > 0 ==> calls[k - 1].SetMaxAge?)
    ensures Build(calls).maxAge == if k == 0 then None else Some(calls[k - 1].seconds)
    decreases |calls|
  {
    var n := |calls|;
    if n > 0 && k < n {
      assert !IsSetMaxAge(calls[n - 1]);
      AgeAsCalled(calls[..n - 1], k);
    }
  }
}
