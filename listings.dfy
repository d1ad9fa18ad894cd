/**
 How each write changes what the listing and profile pages show: the one
 owner's listing gains, updates or loses exactly the written link, and every
 other owner's listing stays as it was.
 */
module Listings {
  import opened Models
  import opened App

  /**
   With the foreign key in place, the listings split the `link` table: every
   link is listed for an existing user, and no link is listed for two users.
   */
  lemma ListingsPartitionLinks(users: map<UserId, User>, links: map<LinkId, Link>)
    requires LinksWellFormed(users, links)
    ensures forall id :: id in links ==> exists owner :: owner in users && id in LinksOf(links, owner)
    ensures forall id, o1, o2 :: id in LinksOf(links, o1) && id in LinksOf(links, o2) ==> o1 == o2
  {
    forall id | id in links
      ensures exists owner :: owner in users && id in LinksOf(links, owner)
    {
      assert id in LinksOf(links, links[id].userId);
    }
  }

  /** Adding a link under a fresh key adds it to its owner's listing and to no other. */
  lemma ListingAfterAdd(links: map<LinkId, Link>, id: LinkId, l: Link, owner: UserId)
    requires id !in links
    ensures LinksOf(links[id := l], owner)
         == if l.userId == owner then LinksOf(links, owner)[id := l] else LinksOf(links, owner)
  {
  }

  /** Editing a link's name and url changes that entry of its owner's listing and nothing else. */
  lemma ListingAfterEdit(links: map<LinkId, Link>, id: LinkId, name: string, url: string, owner: UserId)
    requires id in links
    ensures LinksOf(links[id := links[id].(name := name, url := url)], owner)
         == if links[id].userId == owner
            then LinksOf(links, owner)[id := links[id].(name := name, url := url)]
            else LinksOf(links, owner)
  {
  }

  /** Deleting a link removes it from its owner's listing and changes no other listing. */
  lemma ListingAfterDelete(links: map<LinkId, Link>, id: LinkId, owner: UserId)
    ensures LinksOf(links - {id}, owner) == LinksOf(links, owner) - {id}
  {
  }
}
