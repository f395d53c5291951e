/** The part that requests and replies share: headers, a body, and the bytes prepared for sending. */
module MessageBase {
  import opened MessageRuns
  import opened Headers
  import opened BodyStore

  class Message {
    /** m_headers in iteration order. */
    var headers: seq<Header>
    var data: string
    const body: Body

    ghost predicate Valid()
      reads this, body
    {
      Sorted(headers) && body.Valid()
    }

    constructor (disk: Disk)
      ensures Valid() && fresh(body) && body.disk == disk
      ensures headers == [] && data == "" && body.Contents() == ""
    {
      headers, data := [], "";
      body := new Body(disk);
      new;
      EmptySorted();
    }

    method AddHeader(key: string, value: string)
      requires Valid()
      modifies this`headers
      ensures Valid() && headers == Put(old(headers), key, value)
    {
      PutSorted(headers, key, value);
      headers := Put(headers, key, value);
    }

    method DelHeader(key: string) returns (found: bool)
      requires Valid()
      modifies this`headers
      ensures Valid() && headers == Delete(old(headers), key)
      ensures found == Has(old(headers), key)
    {
      hide Key, Sorted;
      DeleteSorted(headers, key);
      DeleteFinds(headers, key);
      found := |Delete(headers, key)| != |headers|;
      headers := Delete(headers, key);
    }

    function GetHeader(key: string): string
      reads this
    {
      Get(headers, key)
    }

    /** add_body: all of it is stored unless the disk fails, and otherwise a beginning of it. */
    method AddBody(p: string)
      requires Valid()
      modifies body
      ensures Valid()
      ensures exists k | 0 <= k <= |p| :: body.Contents() == old(body.Contents()) + p[..k]
      ensures body.disk.Healthy? || |old(body.Contents())| + |p| <= MAX_BUFFER_SIZE ==>
                body.Contents() == old(body.Contents()) + p
      ensures body.disk.Missing? ==> body.Contents() == Front(old(body.Contents()) + p)
    {
      hide Sorted;
      var done := 0;
      assert p[..0] == "";
      while done != |p|
        invariant 0 <= done <= |p| && Valid()
        invariant body.Contents() == old(body.Contents()) + p[..done]
        decreases |p| - done
      {
        body.Tiers();
        var added := body.Add(p[done..]);
        if added <= 0 {
          return;
        }
        assert p[..done] + p[done..][..added] == p[..done + added];
        done := done + added;
      }
      assert p[..done] == p;
    }

    method Reset()
      requires Valid()
      modifies this, body
      ensures Valid() && headers == [] && data == "" && body.Contents() == ""
    {
      headers, data := [], "";
      EmptySorted();
      body.Clear();
    }
  }

  lemma {:induction false} DeleteFinds(hs: seq<Header>, name: string)
    ensures Has(hs, name) <==> |Delete(hs, name)| != |hs|
    ensures |Delete(hs, name)| == |hs| - (if Has(hs, name) then 1 else 0)
    decreases |hs|
  {
    hide Key;
    if hs != [] {
      DeleteFinds(hs[1..], name);
      if Has(hs[1..], name) {
        var i :| 0 <= i < |hs[1..]| && Key(hs[1..][i].name) == Key(name);
        assert Key(hs[i + 1].name) == Key(name);
      }
      if Has(hs, name) && Key(hs[0].name) != Key(name) {
        var i :| 0 <= i < |hs| && Key(hs[i].name) == Key(name);
        assert Key(hs[1..][i - 1].name) == Key(name);
      }
    }
  }
}
