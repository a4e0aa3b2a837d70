/**
 * The console front end's own logic: the merged list of every person's name, and the guards
 * that turn a blank search term away before any query runs. Console output, the menu loop,
 * paging and file export are not modelled.
 */
module Program {
  import opened Wrappers
  import opened Seqs
  import opened Strings
  import opened Schema
  import opened FaceRecognitionDbReader

  /**
   * Lists every identity name and every tag name once, in ascending order: blank names (null,
   * empty or white space only) are dropped, every other identity and tag name is kept, and
   * nothing else is added.
   */
  method ListAllPeople(rdb: RecognitionDb, ddb: DigikamDb) returns (sortedNames: seq<string>)
    ensures StrictlyAscending(sortedNames)
    ensures forall n :: n in sortedNames ==> IsVisible(n)
    ensures forall n :: n in sortedNames <==> IsVisible(n) && (IdentityNamed(rdb, n) || TagName(ddb, n))
  {
    var identities := GetAllIdentities(rdb);
    var tags := GetAllTags(ddb);
    var allNames := MergeNames(identities, tags);
    sortedNames := SortBy(allNames, Le);
    SortedNames(allNames);
    forall n ensures n in sortedNames <==> IsVisible(n) && (IdentityNamed(rdb, n) || TagName(ddb, n)) {
      IdentityNameListed(rdb, n);
      TagNameListed(ddb, n);
    }
  }

  /**
   * The two loops of `ListAllPeople` that fill its `HashSet`: every identity name and every tag
   * name that is not blank, each once.
   */
  method MergeNames(identities: seq<Identity>, tags: seq<Tag>) returns (allNames: seq<string>)
    ensures NoDuplicates(allNames)
    ensures forall n :: n in allNames <==>
      IsVisible(n) && ((exists x :: x in identities && x.name == Some(n)) || exists t :: t in tags && t.name == n)
  {
    allNames := [];
    var i := 0;
    while i < |identities|
      invariant 0 <= i <= |identities|
      invariant NoDuplicates(allNames)
      invariant forall n :: n in allNames <==> IsVisible(n) && exists x :: x in identities[..i] && x.name == Some(n)
    {
      if !IsNullOrWhiteSpace(identities[i].name) {
        allNames := AddIfAbsent(allNames, identities[i].name.value);
      }
      assert identities[..i + 1] == identities[..i] + [identities[i]];
      i := i + 1;
    }
    assert identities[..i] == identities;

    var j := 0;
    while j < |tags|
      invariant 0 <= j <= |tags|
      invariant NoDuplicates(allNames)
      invariant forall n :: n in allNames <==>
        IsVisible(n) && ((exists x :: x in identities && x.name == Some(n)) || exists t :: t in tags[..j] && t.name == n)
    {
      if !IsNullOrWhiteSpace(Some(tags[j].name)) {
        allNames := AddIfAbsent(allNames, tags[j].name);
      }
      assert tags[..j + 1] == tags[..j] + [tags[j]];
      j := j + 1;
    }
    assert tags[..j] == tags;
  }

  /** The outcome of a menu command that takes a search term. */
  datatype Reply<T> = Rejected | Answered(value: T)

  /**
   * Menu option 2: a null or blank term is rejected without searching; any other term is
   * answered with `SearchPeople`'s result for it.
   */
  method SearchPeopleCommand(rdb: RecognitionDb, ddb: DigikamDb, searchTerm: Option<string>)
    returns (reply: Reply<seq<string>>)
    ensures reply.Rejected? <==> IsNullOrWhiteSpace(searchTerm)
    ensures reply.Answered? ==>
      && StrictlyAscending(reply.value)
      && forall n :: n in reply.value <==> PersonMatches(rdb, ddb, searchTerm.value, n)
  {
    if IsNullOrWhiteSpace(searchTerm) {
      return Rejected;
    }
    var results := SearchPeople(rdb, ddb, searchTerm.value);
    return Answered(results);
  }

  /**
   * Menu option 3: a null or blank person name is rejected without searching; any other name
   * is answered with the images `GetImagesByPersonName` returns for it.
   */
  method FindImagesByPersonCommand(ddb: DigikamDb, personName: Option<string>)
    returns (reply: Reply<seq<Image>>)
    ensures reply.Rejected? <==> IsNullOrWhiteSpace(personName)
    ensures reply.Answered? ==> reply.value == ImagesByPersonName(ddb, personName.value)
  {
    if IsNullOrWhiteSpace(personName) {
      return Rejected;
    }
    var images := GetImagesByPersonName(ddb, personName.value);
    return Answered(images);
  }
}
