/** The Category schema of backend/models/Category.js: trimmed, bounded name
    and description, unique name and slug, and the pre-save hook that
    derives the slug from the name. */
module CategoryModel {
  import opened Common
  import opened Text
  import opened Slugs

  datatype Category = Category(name: string, description: string, slug: string, createdAt: nat)

  const NameMaxLength := 50
  const DescriptionMaxLength := 200

  /** The class `[a-z0-9\s-]` that survives the first `replace`. */
  predicate KeptBySlug(c: char) { IsLowerAlnum(c) || IsSpace(c) || c == '-' }

  /** `s.replace(/[^a-z0-9\s-]/g, '')`. */
  function DropSpecials(s: string): (t: string)
    ensures |t| <= |s|
    ensures forall i :: 0 <= i < |t| ==> KeptBySlug(t[i])
  {
    if s == [] then []
    else if KeptBySlug(s[0]) then [s[0]] + DropSpecials(s[1..])
    else DropSpecials(s[1..])
  }

  /** A string with nothing to delete comes back unchanged. */
  lemma {:induction false} DropSpecialsKept(s: string)
    requires forall i :: 0 <= i < |s| ==> KeptBySlug(s[i])
    ensures DropSpecials(s) == s
  {
    if s != [] {
      DropSpecialsKept(s[1..]);
    }
  }

  /** The category slug of a name (backend/models/Category.js:31-36): lowercase,
      trim, delete specials, white-space runs to `-`, hyphen runs to `-`,
      strip the end hyphens. It is never longer than the name. */
  function CategorySlug(name: string): (slug: string)
    ensures |slug| <= |name|
  {
    StripHyphens(Squeeze(Squeeze(DropSpecials(Trim(Lower(name))), Space), Hyphen))
  }

  /** The category slug contains only `[a-z0-9-]`, never `--`, and no hyphen at an end. */
  lemma CategorySlugClean(name: string)
    ensures CleanSlug(CategorySlug(name))
  {
    var d := DropSpecials(Trim(Lower(name)));
    SqueezeSlugChars(d, Space);
    var w := Squeeze(d, Space);
    SqueezeSlugChars(w, Hyphen);
    var h := Squeeze(w, Hyphen);
    SqueezeNoDoubleHyphen(w, Hyphen);
    StripHyphensClean(h);
  }

  /** A clean slug is its own category slug. */
  lemma CategorySlugOfClean(s: string)
    requires CleanSlug(s)
    ensures CategorySlug(s) == s
  {
    CleanPrefixSteps(s);
    CleanSuffixSteps(s);
  }

  /** The first three steps of the category slug leave a clean slug alone. */
  lemma CleanPrefixSteps(s: string)
    requires CleanSlug(s)
    ensures DropSpecials(Trim(Lower(s))) == s
  {
    LowerNoUpper(s);
    assert forall i :: 0 <= i < |s| ==> !IsSpace(s[i]);
    TrimOfTrimmed(s);
    DropSpecialsKept(s);
  }

  /** Deriving the category slug of a category slug changes nothing. */
  lemma CategorySlugIdempotent(name: string)
    ensures CategorySlug(CategorySlug(name)) == CategorySlug(name)
  {
    CategorySlugClean(name);
    CategorySlugOfClean(CategorySlug(name));
  }

  /** Characters outside `[a-z0-9\s-]` (after lowercasing) vanish: two words
      separated only by such characters run together. */
  lemma CategorySlugDeletesSpecials(a: string, mid: string, b: string)
    requires IsWord(Lower(a)) && IsWord(Lower(b))
    requires forall i :: 0 <= i < |mid| ==> !KeptBySlug(ToLower(mid[i]))
    ensures CategorySlug(a + mid + b) == Lower(a) + Lower(b)
  {
    SpecialsVanish(a, mid, b);
    WordsConcatClean(Lower(a), Lower(b));
    CleanSuffixSteps(Lower(a) + Lower(b));
  }

  /** Specials are deleted before white space becomes a hyphen: two words
      around white space, any specials and white space join with one hyphen. */
  lemma CategorySlugJoinsWords(a: string, sp1: string, mid: string, sp2: string, b: string)
    requires IsWord(Lower(a)) && IsWord(Lower(b))
    requires sp1 != [] && forall i :: 0 <= i < |sp1| ==> IsSpace(sp1[i])
    requires sp2 != [] && forall i :: 0 <= i < |sp2| ==> IsSpace(sp2[i])
    requires forall i :: 0 <= i < |mid| ==> !KeptBySlug(ToLower(mid[i]))
    ensures CategorySlug(a + (sp1 + mid + sp2) + b) == Lower(a) + "-" + Lower(b)
  {
    var la, lb := Lower(a), Lower(b);
    SpacedSpecialsVanish(a, sp1, mid, sp2, b);
    SqueezeJoins(la, sp1 + sp2, lb, Space);
    WordsJoinedClean(la, lb);
    SqueezeFixed(la + "-" + lb, Hyphen);
    StripHyphensOfClean(la + "-" + lb);
  }

  /** The category name "Food & Recipes" gives the slug `food-recipes`. */
  lemma CategorySlugAmpersand(name: string)
    requires name == "Food & Recipes"
    ensures CategorySlug(name) == "food-recipes"
  {
    FoodRecipesWords();
    assert name == "Food" + (" " + "&" + " ") + "Recipes";
    CategorySlugJoinsWords("Food", " ", "&", " ", "Recipes");
  }

  /** The category name "don't" gives the slug `dont`. */
  lemma CategorySlugApostrophe(name: string)
    requires name == "don't"
    ensures CategorySlug(name) == "dont"
  {
    DontWords();
    assert name == "don" + "'" + "t";
    CategorySlugDeletesSpecials("don", "'", "t");
  }

  /** A word has no white space at either end, so trimming leaves it alone. */
  lemma TrimBetweenWords(x: string, m: string, y: string)
    requires IsWord(x) && IsWord(y)
    ensures Trim(x + (m + y)) == x + (m + y)
  {
    var l := x + (m + y);
    assert l[0] == x[0] && l[|l| - 1] == y[|y| - 1];
    TrimOfTrimmed(l);
  }

  /** Two words with only specials between them lose the specials. */
  lemma SpecialsVanish(a: string, mid: string, b: string)
    requires IsWord(Lower(a)) && IsWord(Lower(b))
    requires forall i :: 0 <= i < |mid| ==> !KeptBySlug(ToLower(mid[i]))
    ensures DropSpecials(Trim(Lower(a + mid + b))) == Lower(a) + Lower(b)
  {
    var la, lm, lb := Lower(a), Lower(mid), Lower(b);
    LowerAppend3(a, mid, b);
    TrimBetweenWords(la, lm, lb);
    DropAroundWords(la, lm, lb);
    DropSpecialsNone(lm);
    assert [] + lb == lb;
  }

  /** Two words around white space, specials and white space keep only the white space. */
  lemma SpacedSpecialsVanish(a: string, sp1: string, mid: string, sp2: string, b: string)
    requires IsWord(Lower(a)) && IsWord(Lower(b))
    requires forall i :: 0 <= i < |sp1| ==> IsSpace(sp1[i])
    requires forall i :: 0 <= i < |sp2| ==> IsSpace(sp2[i])
    requires forall i :: 0 <= i < |mid| ==> !KeptBySlug(ToLower(mid[i]))
    ensures DropSpecials(Trim(Lower(a + (sp1 + mid + sp2) + b))) == Lower(a) + ((sp1 + sp2) + Lower(b))
  {
    var la, lb := Lower(a), Lower(b);
    var ls := sp1 + (Lower(mid) + sp2);
    LowerAppend3(a, sp1 + mid + sp2, b);
    LowerSeparator(sp1, mid, sp2);
    TrimBetweenWords(la, ls, lb);
    DropAroundWords(la, ls, lb);
    DropSeparator(sp1, Lower(mid), sp2);
  }

  /** Lowercasing leaves white space alone. */
  lemma LowerSeparator(sp1: string, mid: string, sp2: string)
    requires forall i :: 0 <= i < |sp1| ==> IsSpace(sp1[i])
    requires forall i :: 0 <= i < |sp2| ==> IsSpace(sp2[i])
    ensures Lower(sp1 + mid + sp2) == sp1 + (Lower(mid) + sp2)
  {
    LowerAppend3(sp1, mid, sp2);
    LowerNoUpper(sp1);
    LowerNoUpper(sp2);
  }

  /** Deleting specials from white space, specials and white space keeps the white space. */
  lemma DropSeparator(sp1: string, m: string, sp2: string)
    requires forall i :: 0 <= i < |sp1| ==> IsSpace(sp1[i])
    requires forall i :: 0 <= i < |sp2| ==> IsSpace(sp2[i])
    requires forall i :: 0 <= i < |m| ==> !KeptBySlug(m[i])
    ensures DropSpecials(sp1 + (m + sp2)) == sp1 + sp2
  {
    DropSpecialsKept(sp1);
    DropSpecialsKept(sp2);
    DropSpecialsAppend(sp1, m + sp2);
    DropSpecialsAppend(m, sp2);
    DropSpecialsNone(m);
    assert [] + sp2 == sp2;
  }

  /** Words survive the deletion of specials around them. */
  lemma DropAroundWords(x: string, m: string, y: string)
    requires IsWord(x) && IsWord(y)
    ensures DropSpecials(x + (m + y)) == x + (DropSpecials(m) + y)
  {
    DropSpecialsKept(x);
    DropSpecialsKept(y);
    DropSpecialsAppend(x, m + y);
    DropSpecialsAppend(m, y);
  }


  /** Two words side by side form a clean slug. */
  lemma WordsConcatClean(x: string, y: string)
    requires IsWord(x) && IsWord(y)
    ensures CleanSlug(x + y)
  {
    var w := x + y;
    assert forall i :: 0 <= i < |w| ==> w[i] == if i < |x| then x[i] else y[i - |x|];
  }

  /** The last three steps of the category slug leave a clean slug alone. */
  lemma CleanSuffixSteps(s: string)
    requires CleanSlug(s)
    ensures StripHyphens(Squeeze(Squeeze(s, Space), Hyphen)) == s
  {
    SqueezeFixed(s, Space);
    SqueezeFixed(s, Hyphen);
    StripHyphensOfClean(s);
  }

  /** A string of specials vanishes entirely. */
  lemma {:induction false} DropSpecialsNone(s: string)
    requires forall i :: 0 <= i < |s| ==> !KeptBySlug(s[i])
    ensures DropSpecials(s) == []
  {
    if s != [] {
      DropSpecialsNone(s[1..]);
    }
  }

  /** Deleting specials works character by character. */
  lemma {:induction false} DropSpecialsAppend(a: string, b: string)
    ensures DropSpecials(a + b) == DropSpecials(a) + DropSpecials(b)
  {
    if a != [] {
      assert (a + b)[1..] == a[1..] + b;
      DropSpecialsAppend(a[1..], b);
    } else {
      assert a + b == b;
    }
  }

  /** What the schema accepts, plus the hook's promise that the slug is the
      projection of the name. */
  predicate ValidCategory(c: Category)
  {
    && Trimmed(c.name) && c.name != [] && |c.name| <= NameMaxLength
    && Trimmed(c.description) && |c.description| <= DescriptionMaxLength
    && c.slug == CategorySlug(c.name)
  }

  /** The schema validators, on a document whose setters have already trimmed
      name and description. */
  function SchemaError(c: Category): (e: Option<Error>)
    ensures e == None <==> c.name != [] && |c.name| <= NameMaxLength && |c.description| <= DescriptionMaxLength
    ensures e != None ==> e == Some(ValidationFailed)
  {
    if c.name == [] || |c.name| > NameMaxLength || |c.description| > DescriptionMaxLength
    then Some(ValidationFailed) else None
  }

  /** The pre-save hook of backend/models/Category.js:28-38. */
  function PreSave(doc: Category, isNew: bool, nameModified: bool): (saved: Category)
    ensures (isNew || nameModified) && doc.name != [] ==> saved.slug == CategorySlug(doc.name)
    ensures !(isNew || nameModified) || doc.name == [] ==> saved.slug == doc.slug
    ensures saved.name == doc.name && saved.description == doc.description && saved.createdAt == doc.createdAt
  {
    if (isNew || nameModified) && doc.name != [] then doc.(slug := CategorySlug(doc.name)) else doc
  }

  predicate NamesUnique(cats: map<CategoryId, Category>)
  {
    forall a, b :: a in cats && b in cats && a != b ==> cats[a].name != cats[b].name
  }

  predicate SlugsUnique(cats: map<CategoryId, Category>)
  {
    forall a, b :: a in cats && b in cats && a != b ==> cats[a].slug != cats[b].slug
  }

  /** Another category than `self` already holds the name or the slug of `c`:
      the unique indexes reject the write. */
  predicate IndexClash(cats: map<CategoryId, Category>, self: CategoryId, c: Category)
  {
    exists k | k in cats :: k != self && (cats[k].name == c.name || cats[k].slug == c.slug)
  }

  /** A write that the indexes let through keeps both names and slugs unique. */
  lemma WriteKeepsUnique(cats: map<CategoryId, Category>, id: CategoryId, c: Category)
    requires NamesUnique(cats) && SlugsUnique(cats)
    requires !IndexClash(cats, id, c)
    ensures NamesUnique(cats[id := c]) && SlugsUnique(cats[id := c])
  {
  }

  /** Every stored category is valid and has an id below `bound`. */
  predicate AllValid(cats: map<CategoryId, Category>, bound: nat)
  {
    forall id :: id in cats ==> id < bound && ValidCategory(cats[id])
  }

  /** Storing a valid category under an id below the bound keeps AllValid. */
  lemma StoreKeepsValid(cats: map<CategoryId, Category>, bound: nat, id: CategoryId, c: Category)
    requires AllValid(cats, bound)
    requires id < bound && ValidCategory(c)
    ensures AllValid(cats[id := c], bound)
  {
  }

  /** The document a new category becomes once the setters have trimmed its
      fields and the hook has derived its slug. */
  function Fresh(name: string, description: string, now: nat): (c: Category)
    ensures c.name == Trim(name) && c.description == Trim(description) && c.createdAt == now
    ensures c.name != [] ==> c.slug == CategorySlug(c.name)
  {
    PreSave(Category(Trim(name), Trim(description), [], now), true, false)
  }

  /** A fresh document that passes the validators is a valid category. */
  lemma FreshValid(name: string, description: string, now: nat)
    requires SchemaError(Fresh(name, description, now)) == None
    ensures ValidCategory(Fresh(name, description, now))
  {
  }

  /** The stored category `c` with the given fields assigned (through the trim setters). */
  function Assign(c: Category, name: Option<string>, description: Option<string>): (d: Category)
    ensures d.name == (if name.Some? then Trim(name.value) else c.name)
    ensures d.description == (if description.Some? then Trim(description.value) else c.description)
    ensures d.slug == c.slug && d.createdAt == c.createdAt
  {
    c.(name := if name.Some? then Trim(name.value) else c.name,
       description := if description.Some? then Trim(description.value) else c.description)
  }

  /** What saving `c` with the assigned fields stores: the hook runs with
      `isModified('name')` true exactly when the name changed. */
  function Reassigned(c: Category, name: Option<string>, description: Option<string>): (r: Category)
    ensures var d := Assign(c, name, description);
      r.name == d.name && r.description == d.description && r.createdAt == c.createdAt
    ensures r.slug == c.slug || r.slug == CategorySlug(r.name)
  {
    var d := Assign(c, name, description);
    PreSave(d, false, d.name != c.name)
  }

  /** Editing only the description, or assigning the same name, leaves name
      and slug as they were. */
  lemma ReassignKeepsSlug(c: Category, name: Option<string>, description: Option<string>)
    requires name.None? || Trim(name.value) == c.name
    ensures Reassigned(c, name, description).name == c.name
    ensures Reassigned(c, name, description).slug == c.slug
  {
  }

  /** A renamed category gets the slug of its new name. */
  lemma ReassignRenames(c: Category, name: Option<string>, description: Option<string>)
    requires name.Some? && Trim(name.value) != c.name && Trim(name.value) != []
    ensures Reassigned(c, name, description).slug == CategorySlug(Trim(name.value))
  {
  }

  /** Saving a valid category with assigned fields that pass the validators
      gives a valid category again; only name and description can change. */
  lemma ReassignValid(c: Category, name: Option<string>, description: Option<string>)
    requires ValidCategory(c)
    requires SchemaError(Assign(c, name, description)) == None
    ensures ValidCategory(Reassigned(c, name, description))
    ensures Reassigned(c, name, description).createdAt == c.createdAt
  {
  }

  /** The categories collection with its two unique indexes. Category routes
      are not part of this model: Create and Modify stand for the saves such
      routes would perform. */
  class CategoryStore {
    var categories: map<CategoryId, Category>
    var nextId: CategoryId
    var clock: nat

    ghost predicate Valid()
      reads this
    {
      && AllValid(categories, nextId)
      && NamesUnique(categories)
      && SlugsUnique(categories)
    }

    constructor ()
      ensures Valid() && categories == map[]
    {
      categories := map[];
      nextId := 0;
      clock := 0;
    }

    /** Saves a new category document: validators, hook, unique indexes. */
    method Create(name: string, description: string) returns (r: Result<CategoryId>)
      requires Valid()
      modifies this
      ensures Valid()
      ensures clock == old(clock) + 1
      ensures r == Err(ValidationFailed) <==> SchemaError(Fresh(name, description, 0)) != None
      ensures r == Err(Conflict) <==>
                SchemaError(Fresh(name, description, 0)) == None
                && IndexClash(old(categories), old(nextId), Fresh(name, description, clock))
      ensures r.Err? ==> r.error in {ValidationFailed, Conflict} && categories == old(categories)
      ensures r.Ok? ==>
                && r.value !in old(categories)
                && categories == old(categories)[r.value := Fresh(name, description, clock)]
    {
      clock := clock + 1;
      var saved := Fresh(name, description, clock);
      var err := SchemaError(saved);
      if err.Some? {
        r := Err(err.value);
        return;
      }
      if IndexClash(categories, nextId, saved) {
        r := Err(Conflict);
        return;
      }
      FreshValid(name, description, clock);
      StoreKeepsValid(categories, nextId + 1, nextId, saved);
      WriteKeepsUnique(categories, nextId, saved);
      categories := categories[nextId := saved];
      r := Ok(nextId);
      nextId := nextId + 1;
    }

    /** Assigns the given fields of a stored category and saves it. */
    method Modify(id: CategoryId, name: Option<string>, description: Option<string>) returns (r: Result<CategoryId>)
      requires Valid()
      requires id in categories
      modifies this
      ensures Valid()
      ensures r == Err(ValidationFailed) <==> SchemaError(Assign(old(categories)[id], name, description)) != None
      ensures r == Err(Conflict) <==>
                SchemaError(Assign(old(categories)[id], name, description)) == None
                && IndexClash(old(categories), id, Reassigned(old(categories)[id], name, description))
      ensures r.Err? ==> r.error in {ValidationFailed, Conflict} && categories == old(categories)
      ensures r.Ok? ==> r.value == id && categories == old(categories)[id := Reassigned(old(categories)[id], name, description)]
    {
      var current := categories[id];
      var doc := Assign(current, name, description);
      var err := SchemaError(doc);
      if err.Some? {
        r := Err(err.value);
        return;
      }
      var saved := Reassigned(current, name, description);
      if IndexClash(categories, id, saved) {
        r := Err(Conflict);
        return;
      }
      ReassignValid(categories[id], name, description);
      Put(id, saved);
      r := Ok(id);
    }

    /** Writes a valid document that clashes with no other over the one stored under `id`. */
    method Put(id: CategoryId, c: Category)
      requires Valid() && id in categories
      requires ValidCategory(c) && !IndexClash(categories, id, c)
      modifies this
      ensures Valid()
      ensures categories == old(categories)[id := c] && nextId == old(nextId) && clock == old(clock)
    {
      StoreKeepsValid(categories, nextId, id, c);
      WriteKeepsUnique(categories, id, c);
      categories := categories[id := c];
    }
  }
}
