/**
 * The registry of downloads: an ordered sequence of items and the counter that hands out ids.
 * The registry lock is a no-op in this sequential model; starting a worker and cancelling a
 * context are recorded in a ghost log of events instead of being run.
 */
module Manager {
  import opened Wrappers
  import opened Item
  import opened Transfer
  import Dto
  import Strconv

  /** What the registry asked of the outside: a worker started on a context, a context cancelled. */
  datatype Event = Spawn(id: int, generation: nat) | CancelRun(id: int, generation: nat)

  /** The position of the first item with the given id. */
  function Find(items: seq<DownloadItem>, id: int): (r: Option<nat>)
    ensures r.Some? ==> r.value < |items| && items[r.value].Id == id
    ensures r.Some? ==> forall j :: 0 <= j < r.value ==> items[j].Id != id
    ensures r.None? <==> forall j :: 0 <= j < |items| ==> items[j].Id != id
  {
    if items == [] then None
    else if items[0].Id == id then Some(0)
    else match Find(items[1..], id)
      case None => None
      case Some(j) => Some(j + 1)
  }

  /** Ids of the items lie in [0, bound) and increase along the sequence. */
  ghost predicate Registered(items: seq<DownloadItem>, bound: int) {
    && (forall i :: 0 <= i < |items| ==> 0 <= items[i].Id < bound)
    && (forall i, j :: 0 <= i < j < |items| ==> items[i].Id < items[j].Id)
  }

  /** Cutting one item out keeps the ids registered. */
  lemma RegisteredWithout(items: seq<DownloadItem>, bound: int, k: nat)
    requires Registered(items, bound) && k < |items|
    ensures Registered(items[..k] + items[k + 1..], bound)
  {
    var rest := items[..k] + items[k + 1..];
    assert forall j :: 0 <= j < |rest| ==> rest[j] == items[if j < k then j else j + 1];
  }

  /** In registered items the search for an item's id finds that item. */
  lemma FindsItem(items: seq<DownloadItem>, bound: int, k: nat)
    requires Registered(items, bound) && k < |items|
    ensures Find(items, items[k].Id) == Some(k)
  {
  }

  /** The error DeleteDownload returns for an unknown id. */
  function NotFound(id: int): string {
    "downloadItem with id: " + Strconv.Itoa(id) + " not found\n"
  }

  class DownloadManager {
    var Downloads: seq<DownloadItem>
    var idGetter: int
    ghost var Events: seq<Event>

    /** Every stored id was handed out by the counter, and ids increase along the sequence. */
    ghost predicate Valid()
      reads this
    {
      0 <= idGetter && Registered(Downloads, idGetter)
    }

    /** NewDownloadManager */
    constructor ()
      ensures Valid()
      ensures Downloads == [] && idGetter == 0 && Events == []
    {
      Downloads, idGetter, Events := [], 0, [];
    }

    /**
     * ResumeDownload: every item with the id (at most one, since ids are distinct) gets a new
     * context and a new worker; whether the item is active is not checked.
     */
    method ResumeDownload(id: int)
      requires Valid()
      modifies this`Events, Downloads
      ensures Valid()
      ensures forall it :: it in Downloads ==> it.Status() == old(it.Status())
      ensures forall it :: it in Downloads && it.Id != id ==> it.Ctx == old(it.Ctx)
      ensures match Find(Downloads, id)
        case None => Events == old(Events)
        case Some(i) =>
          var it := Downloads[i];
          && it.Ctx == Context(old(it.Ctx.generation) + 1, false)
          && Events == old(Events) + [Spawn(id, it.Ctx.generation)]
    {
      ghost var f := Find(Downloads, id);
      for i := 0 to |Downloads|
        invariant forall it :: it in Downloads ==> it.Status() == old(it.Status())
        invariant forall j :: i <= j < |Downloads| ==> Downloads[j].Ctx == old(Downloads[j].Ctx)
        invariant forall j :: 0 <= j < i && Downloads[j].Id != id ==> Downloads[j].Ctx == old(Downloads[j].Ctx)
        invariant f.Some? && f.value < i ==>
          var it := Downloads[f.value];
          && it.Ctx == Context(old(it.Ctx.generation) + 1, false)
          && Events == old(Events) + [Spawn(id, it.Ctx.generation)]
        invariant !(f.Some? && f.value < i) ==> Events == old(Events)
      {
        var item := Downloads[i];
        if item.Id == id {
          assert f == Some(i);
          item.ChangeCtx(Context(item.Ctx.generation + 1, false));
          Events := Events + [Spawn(id, item.Ctx.generation)];
        }
      }
    }

    /**
     * AddDownload: a pending item with the counter's value as id is appended; the counter grows
     * by one. The worker is not started.
     */
    method AddDownload(url: string, filepath: string, filename: string) returns (item: DownloadItem)
      requires Valid()
      modifies this`Downloads, this`idGetter
      ensures Valid()
      ensures fresh(item)
      ensures item.Id == old(idGetter) && idGetter == old(idGetter) + 1
      ensures Downloads == old(Downloads) + [item]
      ensures item.Url == url && item.Filepath == filepath && item.Filename == filename
      ensures item.Status() == Progress(false, false, 0, 0, None) && item.Ctx == Context(0, false)
    {
      item := new DownloadItem(idGetter, url, filepath, filename);
      idGetter := idGetter + 1;
      Downloads := Downloads + [item];
    }

    /** StopDownload: cancels the item's current context; the item's fields, Active included, are untouched. */
    method StopDownload(item: DownloadItem)
      modifies this`Events, item`Ctx
      ensures item.Ctx == old(item.Ctx).(done := true)
      ensures Events == old(Events) + [CancelRun(item.Id, item.Ctx.generation)]
    {
      item.Cancel();
      Events := Events + [CancelRun(item.Id, item.Ctx.generation)];
    }

    /**
     * DeleteDownload: the first item with the id is cancelled if it is active and cut out of the
     * sequence, the others keeping their order; an unknown id is an error and changes nothing.
     */
    method DeleteDownload(id: int) returns (err: Option<string>)
      requires Valid()
      modifies this`Downloads, this`Events, Downloads
      ensures Valid()
      ensures forall it :: it in old(Downloads) ==> it.Status() == old(it.Status())
      ensures forall it :: it in old(Downloads) && it.Id != id ==> it.Ctx == old(it.Ctx)
      ensures match old(Find(Downloads, id))
        case None =>
          && err == Some(NotFound(id))
          && Downloads == old(Downloads) && Events == old(Events)
        case Some(i) =>
          var it := old(Downloads[i]);
          && err.None?
          && Downloads == old(Downloads[..i] + Downloads[i + 1..])
          && (old(it.Active) ==>
                it.Ctx == old(it.Ctx).(done := true) && Events == old(Events) + [CancelRun(id, it.Ctx.generation)])
          && (!old(it.Active) ==> it.Ctx == old(it.Ctx) && Events == old(Events))
    {
      var i := 0;
      while i < |Downloads|
        invariant 0 <= i <= |Downloads|
        invariant forall j :: 0 <= j < i ==> Downloads[j].Id != id
      {
        var item := Downloads[i];
        if item.Id == id {
          if item.Active {
            item.Cancel();
            Events := Events + [CancelRun(id, item.Ctx.generation)];
          }
          assert Find(Downloads, id) == Some(i);
          RegisteredWithout(Downloads, idGetter, i);
          Downloads := Downloads[..i] + Downloads[i + 1..];
          return None;
        }
        i := i + 1;
      }
      return Some(NotFound(id));
    }

    /** StartDownload: starts the item's worker on its current context. */
    method StartDownload(item: DownloadItem)
      modifies this`Events
      ensures Events == old(Events) + [Spawn(item.Id, item.Ctx.generation)]
    {
      Events := Events + [Spawn(item.Id, item.Ctx.generation)];
    }

    /** GetItemById: the first item with the id, null when there is none. */
    method GetItemById(id: int) returns (item: DownloadItem?)
      ensures item == null <==> forall j :: 0 <= j < |Downloads| ==> Downloads[j].Id != id
      ensures item != null ==> exists j :: 0 <= j < |Downloads| && Downloads[j] == item && item.Id == id
      ensures item == match Find(Downloads, id) case None => null case Some(i) => Downloads[i]
    {
      for i := 0 to |Downloads|
        invariant forall j :: 0 <= j < i ==> Downloads[j].Id != id
      {
        if Downloads[i].Id == id {
          return Downloads[i];
        }
      }
      return null;
    }

    /** GetAllDownloads: one snapshot per item, in the order of the sequence. */
    method GetAllDownloads() returns (dtos: seq<Dto.DownloadItemDto>)
      ensures |dtos| == |Downloads|
      ensures forall i :: 0 <= i < |Downloads| ==> dtos[i] == Downloads[i].GetData()
    {
      dtos := [];
      for i := 0 to |Downloads|
        invariant |dtos| == i
        invariant forall j :: 0 <= j < i ==> dtos[j] == Downloads[j].GetData()
      {
        dtos := dtos + [Downloads[i].GetData()];
      }
    }
  }

  /** In a valid registry an id names at most one position. */
  lemma IdsAreDistinct(m: DownloadManager, i: nat, j: nat)
    requires m.Valid()
    requires i < |m.Downloads| && j < |m.Downloads| && i != j
    ensures m.Downloads[i].Id != m.Downloads[j].Id
  {
    if i > j {
      assert m.Downloads[j].Id < m.Downloads[i].Id;
    } else {
      assert m.Downloads[i].Id < m.Downloads[j].Id;
    }
  }
}
